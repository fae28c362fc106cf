# interest-memory: a verified model

interest-memory turns conversation transcripts into clustered interest points and a wiki
graph.  Around its model and SQL calls sit small exact algorithms: union-find clustering,
conflict queues, a bounded parallel map, a job worker with one queue and one runner per
agent, a hop-bounded walk, an adjacency index with dead links, replacement chains, an LRU
cache with a batch embedder over it, a top-K merge, transcript windows with turn numbers, and
token accounting.  This project models each of them in Dafny and proves what it promises, or
states exactly when it keeps the promise.

`dafny verify dfyconfig.toml` checks everything.  Classes keep the fields the source mutates
(`UnionFind.Forest`, `JobTable.Worker`, `Lru.Ring`, `Lru.Cache`, `Embedding.Embedder`,
`EdgeTable.Store`, `Usage.Tracker`); each of their methods is proved against a function of the
old state, and the theorems are about those functions.  Goroutines are steps of a state
machine (`WorkerProtocol`, `Parallel`), and the theorems are about every run.

| modules | subject |
|---|---|
| `UnionFind`, `Clustering` | union-find with path compression; the three copies of the algorithm (s1, s2, wiki groups) share one proof |
| `StableOrder`, `Conflicts`, `Placement`, `ConflictQueues`, `ConflictTheorems`, `ClusterStage` | stage s2: historical matches, components, conflict queues |
| `Parallel`, `Dedupe`, `MergeStage`, `StageOutput` | stage s1: topic fold, parallel map, cluster merge |
| `JobTable`, `WorkerProtocol`, `WorkerTheorems`, `WorkerOutcomes`, `WorkerProgress` | the job worker |
| `LruModel`, `Lru`, `Embedding`, `VectorSearch` | caches and ranking |
| `Graph`, `EdgeTable`, `Rebuild`, `Reconcile` | the wiki graph |
| `Replacement`, `Hits`, `Recall`, `Grading` | replacement chains, ranked hits and their readers |
| `Selection`, `Turns`, `Windows` | transcript windows and turn numbers |
| `Usage` | token accounting |
| `Wrappers` | option and result |

What enters from outside is a parameter and ranges over all values: embeddings and the
similarity of two vectors, answers of the model, clock readings, the order of a map range,
whether a query or a write succeeds, white-space trimming, topic normalization, wikilink
extraction, and the rounding of a score (any monotone function).

## Where the code and its description part

The model follows the code.  For each of these a theorem gives the exact condition, or a
concrete store on which it happens.

- A component can vanish from stage s2: when an id finds one component left, that component is
  marked used and its queue is dropped (`ConflictTheorems.NeverLostIff`,
  `ClusterStage.SharedByTwoMembersIsLost`).
- `runParallel` returns nil with empty slots when its parent is cancelled
  (`Parallel.NilMeansFilledUnlessSkipped`, `Parallel.CancelledParentCanReturnNil`).
- A verdict with an unknown action swallows the sources it names (`MergeStage.LostIff`).
- Turn ranges are described as global message indexes; in the non-prefix route they count from
  the start of the window, which is the transcript's only for the first window of an uncapped
  split (`Windows.GroupRangeIsGlobalIff`).
- The range (0, 0) means both "unknown" and "the first message": the first message alone is
  never quoted (`Turns.SegmentIsExactIff`), a merged range can lose its beginning
  (`Dedupe.SpanCoversIff`), and one unknown range makes a group quote from the start
  (`Turns.GroupIsKnownSpanIff`, `Turns.UnknownRangeQuotesFromStart`).
- Renderings of growing windows are described as strict prefixes, without tool output; the
  prefix route renders tool output, and a window that adds only blank messages adds nothing
  (`Windows.WindowRenderingsGrow`).
- Hits are described as sorted before they are deduplicated; search does it the other way round.
  The two agree exactly when each id's first hit is its best (`Hits.OrdersAgreeIff`).  That
  holds for what the retrieval routes return: vector search answers in descending score, the
  keyword routes give every hit the same score, and the lists of two namespaces have no key in
  common (`Hits.DescendingKeepsBest`, `Hits.DisjointKeepsBest`).
- Grading and search are both described as substituting silently; grading follows one
  replacement, search all of them (`Grading.GradingSeesOneStep`).
- Neither the walk to a successor nor the substitution remembers where it has been: they end
  exactly when there is no cycle of archived sequels and none of stale pages
  (`Replacement.WalkEndsIff`, `Recall.AnswersIff`, `Grading.SharedPageIsNeverAnswered`).
- The rebuild drops one direction of a contradiction pair and leaves stale dead links of
  untouched pages (`Rebuild.ContradictionsSurviveIff`, `Rebuild.InStepAfterRunIff`).
- A short embedding response leaves missing vectors without an error
  (`Embedding.BatchIsTransparentIff`, `Embedding.Embedder.Embed`).
- What is pending when the day changes is not written (`Usage.PastDayIsExactIff`), nor is what a
  failed flush carried (`Usage.FailedFlushIsLost`).

## Model

| member | source | states |
|---|---|---|
| `UnionFind.Forest.Find` | internal/interest/merge.go:167-173 | terminates under path compression and returns the class representative; the classes and the acyclic forest are kept while `parent` is rewritten |
| `UnionFind.Forest.Union` | internal/interest/merge.go:174-179 | merges exactly the two classes of its arguments under the second representative and moves no other class |
| `UnionFind.Compressed` | internal/interest/merge.go:167-173 | pointing an index at its representative keeps the forest acyclic and every class as it was |
| `UnionFind.Grafted` | internal/interest/merge.go:174-179 | hanging one representative under another merges the two classes and makes no cycle |
| `UnionFind.LinkAll` | internal/interest/merge.go:180-186 | after all pairs are scanned two indices share a representative exactly when a chain of links joins them |
| `UnionFind.ReadGroups` | internal/interest/merge.go:187-204 | one lookup per index, with its compressions, reads off the groups of the marking and keeps the forest |
| `UnionFind.GroupsListComponents` | internal/interest/merge.go:187-204 | the groups are the classes of the reflexive-transitive closure of the links, in first-member order, members in input order |
| `UnionFind.ListingUnique` | internal/interest/merge.go:187-204 | that description has one answer only: any two listings of the same links are equal |
| `UnionFind.Components` | internal/interest/merge.go:161-205 | the connected classes of the links, for every number of points and every relation |
| `Clustering.ConnectedComponents` | internal/interest/merge.go:161-205 | clusters hold exactly the points of each class of "cosine above threshold", in order |
| `Clustering.LargerAre` | internal/wiki/grouping.go:85-99 | the clusters are the classes of two or more points, all of them and in order |
| `Clustering.SymmetricLinks` | internal/interest/merge.go:180-186 | with a symmetric cosine two distinct points are linked exactly when their similarity exceeds the threshold, whichever index comes first |
| `Clustering.GroupByCluster` | internal/wiki/grouping.go:24-101 | classes of "both vectors known and cosine at least the threshold", split into groups and lone points; an error exactly when a vector lookup fails |
| `Clustering.SinglesAre` | internal/wiki/grouping.go:93-99 | the isolated list holds exactly the classes of one point |
| `Clustering.NoVectorIsolated` | internal/wiki/grouping.go:70-99 | a point with no vector is always a class of its own, whatever the other vectors are |
| `Conflicts.FindMatches` | internal/interest/cluster.go:97-133 | the historical points kept for one current point, stopping at the first hit below the threshold, with the error of a failed fetch |
| `Conflicts.MatchesAre` | internal/interest/cluster.go:97-133 | exactly the interest-point hits before the stop whose stored vector is similar enough are kept, in order; an error exactly when a fetch before the stop fails |
| `Conflicts.RankedStopIsExact` | internal/interest/cluster.go:102-132 | on hits ranked by score the early stop drops no historical point that the full scan would keep |
| `Conflicts.BuildComponents` | internal/interest/cluster.go:143-178 | the isolated points and the components of the classes; which points and which classes these are is stated by `Placement.IsolatedIff` and `Placement.ComponentsAreClasses` |
| `Placement.IsolatedIff` | internal/interest/cluster.go:159-171 | a point is isolated exactly when it has no historical match and is connected to no other point; isolated points are listed once, in order |
| `Placement.ComponentsAreClasses` | internal/interest/cluster.go:143-178 | every component is one connected class, its members in order with their vectors and its history their matches one after the other; every point not isolated is in exactly one component, and components are in first-member order |
| `Conflicts.IndexHist` | internal/interest/cluster.go:185-190 | each historical id maps to the components that list it, once per listing, in component order |
| `Conflicts.AffinityOf` | internal/interest/cluster.go:227-236 | the largest similarity of a component member to the shared point, and -1 for none |
| `Conflicts.AffinityIsLargest` | internal/interest/cluster.go:227-235 | the affinity is the similarity of some member, or -1, and no member has a larger one |
| `Conflicts.SiftLeft` | internal/interest/cluster.go:240-246 | the inner loop moves one entry left past exactly the trailing entries of smaller affinity |
| `Conflicts.SortConflictQueue` | internal/interest/cluster.go:240-246 | the in-place sort leaves the stable descending-affinity rearrangement of the queue |
| `StableOrder.SortIsStable` | internal/interest/cluster.go:240-246 | the insertion order is descending and keeps ties in place |
| `StableOrder.StableSortUnique` | internal/interest/cluster.go:240-246 | a stable descending rearrangement of a sequence is unique, so any stable sort gives this one |
| `ConflictQueues.TakeUnused` | internal/interest/cluster.go:204-211 | takes the listed components that are not yet used, each once, and marks exactly those as used |
| `ConflictQueues.FindShared` | internal/interest/cluster.go:196-203 | the vector of the shared historical point: the one its last entry carries in the last component listed, and none for an empty list |
| `ConflictQueues.VisitId` | internal/interest/cluster.go:192-216 | one id of the range: its queue is kept when it has two entries or more, and dropped otherwise with its entries marked used |
| `ConflictQueues.PullQueues` | internal/interest/cluster.go:191-216 | all queues and used flags after the whole range, for every order of the range |
| `ConflictQueues.ResolveConflicts` | internal/interest/cluster.go:185-221 | the plain list holds exactly the components no queue pulled out |
| `ConflictTheorems.PointsAccounted` | internal/interest/cluster.go:185-221 | for every range order and every point: occurrences in the plain list, in the queues and in the dropped components add up to those that went in |
| `ConflictTheorems.PlainPicks` | internal/interest/cluster.go:218-221 | the plain list holds the components no queue pulled out, all of them and in order |
| `ConflictTheorems.QueuesPick` | internal/interest/cluster.go:192-216 | there is one sorted queue for every id that still finds two components, in visiting order, and no other |
| `ConflictTheorems.QueueIsFreshRivals` | internal/interest/cluster.go:204-211 | an id pulls out exactly the components that share it with another listing and that no earlier id pulled out |
| `ConflictTheorems.NothingLostIff` | internal/interest/cluster.go:192-216 | for one range order nothing is lost exactly when no id is left with a single component |
| `ConflictTheorems.NeverLostIff` | internal/interest/cluster.go:185-221 | no order of the map range loses a component exactly when no component has, for some id, only rivals that each compete for an id it does not compete for |
| `ConflictTheorems.CorneredIsTrapped` | internal/interest/cluster.go:192-216 | for such a component the ids that spare it, visited before, leave it alone at that id |
| `ConflictTheorems.TrapSprung` | internal/interest/cluster.go:192-216 | from every trap, an id and earlier ids that leave it a single component, an order of the range is built that does lose a component |
| `ConflictTheorems.OwnRivalIsLost` | internal/interest/cluster.go:185-221 | a lone component that lists one historical point twice is pulled out of the plain list and its queue is dropped |
| `ClusterStage.SharedByTwoMembersIsLost` | internal/interest/cluster.go:52-223 | two similar points whose searches find the same one historical point: the stage returns no component, no isolated point and no queue |
| `ClusterStage.Cluster` | internal/interest/cluster.go:52-223 | the whole stage: fails exactly when a search or fetch fails; else its parts are those of the trace `t`, which `ClusterStage.PlacedByClass`, `ClusterStage.PlacedOnceOrLost` and `ClusterStage.ConflictsAreFair` describe for every result |
| `ClusterStage.PlacedByClass` | internal/interest/cluster.go:143-178 | for every result of the stage: who is isolated, and that each other class is exactly one component carrying its members' matches |
| `ClusterStage.PlacedOnceOrLost` | internal/interest/cluster.go:143-222 | every index appears exactly once across isolated points, components, queues and lost components, and no other index appears |
| `ClusterStage.QueueIsFair` | internal/interest/cluster.go:192-216 | every conflict queue has at least two components, all listing one historical id, by falling affinity to the vector stored under that id, ties in the order of the component list |
| `ClusterStage.ConflictsAreFair` | internal/interest/cluster.go:52-216 | the same for every queue of a result of the stage, whatever its searches and fetches gave |
| `ClusterStage.ListingCountsAll` | internal/interest/cluster.go:143-153 | a component listing holds every index exactly once |
| `Parallel.StepKeepsInv` | internal/interest/merge.go:111-148 | every goroutine step of every schedule keeps the invariant of the bounded parallel map |
| `Parallel.NeverOverLimit` | internal/interest/merge.go:111-148 | at every moment of every run at most maxConc calls are in flight, and no index is called twice |
| `Parallel.FirstIsEarliest` | internal/interest/merge.go:111-148 | the error it returns is the first that any call returned |
| `Parallel.ReturnsIdle` | internal/interest/merge.go:111-148 | every slot of the semaphore has been given back when the map returns |
| `Parallel.LiveParentIsExact` | internal/interest/merge.go:111-148 | with a live parent it returns nil exactly when every call succeeds, and then every index ran once and its slot holds its own result |
| `Parallel.NilMeansFilledUnlessSkipped` | internal/interest/merge.go:130-134 | on a nil return a slot is empty exactly where the goroutine gave up, which takes a cancelled parent |
| `Parallel.CancelledParentCanReturnNil` | internal/interest/merge.go:130-134 | for every number of calls and every bound, a run that returns nil with all slots empty after the parent is cancelled |
| `Parallel.StepsDecrease` | internal/interest/merge.go:111-148 | every goroutine step lowers a natural-number measure |
| `Parallel.NeverStuck` | internal/interest/merge.go:111-148 | until the map returns some goroutine can move |
| `MergeStage.ApplyVerdict` | internal/interest/merge.go:223-238 | the points one verdict puts out: a fused point for merge and compose, the named sources in cluster order for keep, nothing for any other action |
| `MergeStage.MergeCluster` | internal/interest/merge.go:210-247 | verdicts in order and then the unmentioned sources, or the first failed request |
| `MergeStage.KeptIff` | internal/interest/merge.go:217-246 | a source comes out exactly when no verdict names it, or a keep verdict does, or a merge or compose verdict makes exactly this point anew |
| `MergeStage.LostIff` | internal/interest/merge.go:217-246 | a source is neither put out nor named by a merge or compose verdict exactly when verdicts name it, all of them with an unknown action, and none makes it anew |
| `StageOutput.MergedPutsOut` | internal/interest/merge.go:210-247 | a merged cluster is one block per verdict in order (the fused point embedded anew; the named sources in cluster order; nothing for an unknown action) and then the sources no verdict names |
| `MergeStage.ClusterPoints` | internal/interest/merge.go:54-80 | the clusters of the embedded points, with the default threshold for a non-positive one |
| `MergeStage.DedupeMergeSerially` | internal/interest/merge.go:53-106 | the serial pipeline: fold, embed each, cluster, merge each cluster, concatenate; the first failure ends it; its output is described by `StageOutput.SerialPutsOut` |
| `StageOutput.SerialPutsOut` | internal/interest/merge.go:66-105 | the output is one block per connected cluster, in first-member order: the point itself for a cluster of one, its merge for any other |
| `MergeStage.MapMatchesSerial` | internal/interest/merge.go:111-148 | every schedule of the parallel map gives the serial results in index order, or fails when and only when the serial map fails |
| `MergeStage.SameAsSerial` | internal/interest/merge.go:66-105 | under every schedule of both parallel sections the stage returns exactly what the serial pipeline returns; what that is, is stated by `StageOutput.ParallelPutsOut` and `StageOutput.ParallelFailsIff` |
| `StageOutput.ParallelPutsOut` | internal/interest/merge.go:66-105 | the same blocks come out under every schedule of both parallel sections |
| `StageOutput.ParallelFailsIff` | internal/interest/merge.go:66-105 | under every schedule the stage fails exactly when an embedding, a request about a cluster of several points, or the embedding of a fused point fails |
| `StageOutput.LoneCandidateComesOut` | internal/interest/merge.go:88-104 | a folded candidate linked to no other comes out exactly as embedded, in a block of its own and in no other |
| `MergeStage.FailureIsACall` | internal/interest/merge.go:66-105 | an error of the stage is the error of one of its own calls |
| `Dedupe.DedupeAll` | internal/fork/fork.go:459-504 | the in-place fold over the candidates, with its search and tag loops |
| `Dedupe.FoldIsDedupe` | internal/fork/fork.go:459-504 | the result has one candidate per non-empty key in order of first mention, each the left fold of its whole group, and all candidates without a key in order |
| `Dedupe.GroupKeepsBest` | internal/fork/fork.go:479-484 | a group carries topic, reason, confidence and subjectivity of the earliest of its most confident members |
| `Dedupe.GroupEnd` | internal/fork/fork.go:488-490 | a group ends where its last member ends |
| `Dedupe.GroupStart` | internal/fork/fork.go:485-487 | a group starts at the least start above zero, at zero only if every start is zero |
| `Dedupe.SpanCoversIff` | internal/fork/fork.go:485-490 | the merged range reaches back to every member exactly when all of them start at message zero or none does |
| `Dedupe.GroupVerdict` | internal/fork/fork.go:491-495 | the wiki verdict is the first one any member gives |
| `Dedupe.GroupTags` | internal/fork/fork.go:496-500 | a group carries every tag of its members and no other |
| `Dedupe.GroupTagsOnce` | internal/fork/fork.go:496-500 | first the tags of the first member as they are, then each tag where a later member first mentions it, in that order |
| `Dedupe.DedupeTwice` | internal/interest/merge.go:289-332 | folding a folded list changes nothing, so the second fold at the start of s1 is a no-op |
| `Dedupe.DedupeOfAppended` | internal/fork/fork.go:223-232 | folding a folded first pass with more candidates equals folding everything at once |
| `JobTable.Worker.Register` | internal/worker/worker.go:91-105 | registers the job as queued and evicts a legal set when the table is over its bound |
| `JobTable.Worker.PruneLocked` | internal/worker/worker.go:113-129 | evicts finished jobs only, oldest first, and no more than the excess |
| `JobTable.PruneBound` | internal/worker/worker.go:113-129 | after pruning the table is within 1000 jobs or holds no finished one, and it is never pruned below 1000 |
| `JobTable.SortedEvictionLegal` | internal/worker/worker.go:117-128 | whatever order the map range lists them in, sorting by completion time and cutting gives an oldest-first eviction |
| `JobTable.Worker.OpenQueue` | internal/worker/worker.go:131-143 | refuses when closed, else finds or creates the agent queue and says whether a runner must start |
| `JobTable.Worker.SetStatus` | internal/worker/worker.go:191-210 | updates a job that is still in the table, stamping the completion time on the terminal states |
| `WorkerProtocol.StepKeepsInv` | internal/worker/worker.go:91-239 | every step of every interleaving of callers, runners and Close keeps the invariant |
| `WorkerTheorems.ReachableInv` | internal/worker/worker.go:91-239 | every state reached from the empty worker satisfies the invariant |
| `WorkerTheorems.ExactlyOnePlace` | internal/worker/worker.go:131-189 | every registered job is in exactly one place: before or at its send, in its queue, with its runner, finished, or dropped |
| `WorkerTheorems.StatusMatchesPlace` | internal/worker/worker.go:161-222 | whether a status is running or terminal, and whether there is a completion time, as a poll reads them, tell the place; a job missing from the table is finished; only Close drops a job |
| `WorkerOutcomes.JobIsAsRegistered` | internal/worker/worker.go:91-105 | on every run, a job in the table was registered by exactly one step, and agent, session and creation time are those of that step |
| `WorkerOutcomes.FinishedAsReported` | internal/worker/worker.go:161-210 | on every run, a job shown as finished was finished by exactly one step of the runner busy with it: done exactly when that step succeeded, with its error text and its time |
| `WorkerOutcomes.ReportStays` | internal/worker/worker.go:161-222 | what a run reported is what every later poll shows, for as long as the job is in the table |
| `WorkerTheorems.OneRunningPerAgent` | internal/worker/worker.go:155-189 | two running jobs of one agent are the same job |
| `WorkerTheorems.HistoryGrows` | internal/worker/worker.go:131-189 | deliveries and starts are only ever appended |
| `WorkerTheorems.StartsInDeliveryOrder` | internal/worker/worker.go:155-189 | what an agent has started at any moment is a prefix of what its queue has been given by any later moment |
| `WorkerTheorems.RegisterBoundsTable` | internal/worker/worker.go:91-129 | after a registration the table is bounded or holds no finished job, and full if any was evicted; the evicted were finished and none left behind finished earlier |
| `WorkerProgress.InternalStepsDecrease` | internal/worker/worker.go:131-189 | every step that is not a new registration or Close lowers a natural-number measure |
| `WorkerProgress.RunsAreBounded` | internal/worker/worker.go:131-189 | a run of internal steps is no longer than the measure it starts with |
| `WorkerProgress.UnsettledCanMove` | internal/worker/worker.go:131-189 | while a job is undelivered or unfinished some internal step is enabled, even with every queue full |
| `WorkerProgress.RestMeansDone` | internal/worker/worker.go:131-189 | at rest every job is settled, and finished if the worker was not closed |
| `Lru.Ring.Remove` | internal/cache/lru.go:60-66 | unlinks one element; the others keep their order |
| `Lru.Ring.InsertFront` | internal/cache/lru.go:58-58 | links a new element in front; the others keep their order |
| `Lru.Ring.MoveToFront` | internal/cache/lru.go:41-43 | moves one element to the front; the others keep their order |
| `Lru.Cache.Get` | internal/cache/lru.go:33-45 | over the linked list and the map: the lookup result and the new most-recent-first contents |
| `Lru.Cache.Set` | internal/cache/lru.go:47-67 | update in place, or push and evict the back element; list, map and contents stay in agreement |
| `LruModel.RunFits` | internal/cache/lru.go:33-67 | on every trace no key occurs twice and the size never exceeds the capacity |
| `LruModel.HitIsLastSet` | internal/cache/lru.go:33-67 | a hit returns the value last set for its key, on every trace |
| `LruModel.RunIncluded` | internal/cache/lru.go:33-67 | on one trace the contents at a capacity are a subsequence of the contents at any larger one, and equal until the smaller is full |
| `LruModel.LargerKeepsHits` | internal/cache/lru.go:33-67 | a larger capacity never loses a hit nor changes its value |
| `LruModel.RecentKeysSurvive` | internal/cache/lru.go:33-67 | a key stays cached while fewer than capacity other keys have been used since it was set or found |
| `LruModel.RecentKeysHit` | internal/cache/lru.go:33-45 | such a key is a hit with the value last set |
| `LruModel.UnusedKeyMisses` | internal/cache/lru.go:47-67 | a key is gone once capacity other keys have been set without its being used |
| `Embedding.Embedder.LookUp` | internal/llm/embedder.go:117-127 | cached vectors in their slots, the misses with their positions in order, and the cache reordered by the lookups |
| `Embedding.Embedder.StoreAll` | internal/llm/embedder.go:164-167 | the vectors stored one after the other under their texts |
| `Embedding.Embedder.EmbedBatch` | internal/llm/embedder.go:113-172 | no request when all texts are cached, else one request for exactly the misses; result and cache for an error, a short, an exact and an overlong response |
| `Embedding.BatchIsTrace` | internal/llm/embedder.go:113-172 | what a batch leaves in the cache is what one get per text and then one set per vector leave, so the cache theorems hold across batches |
| `Embedding.StoredIsHit` | internal/llm/embedder.go:164-167 | a vector that came back is found afterwards, if fewer than capacity vectors came after it and none of those is for the same text |
| `Embedding.Embedder.Embed` | internal/llm/embedder.go:98-110 | a cached vector, else what the response to the one text holds, with the cache left behind in each case; a response without vectors is passed on as a missing vector, since the guard for an empty result never fires |
| `Embedding.AskedAreMissing` | internal/llm/embedder.go:117-127 | a text is asked for exactly when it occurs in the batch and is not cached |
| `Embedding.AnsweredAt` | internal/llm/embedder.go:117-171 | slot by slot: the embedding of the text, or nothing where the response stopped short |
| `Embedding.BatchIsTransparentIff` | internal/llm/embedder.go:113-172 | from a cache that agrees with the embedding, every slot is the embedding of its text exactly when the response answers every miss |
| `Embedding.BatchKeepsAgreement` | internal/llm/embedder.go:164-167 | the cache still agrees with the embedding after a batch, also after a short response |
| `VectorSearch.Search` | internal/vec/sqlitevec.go:119-165 | the K best hits of both kinds, in stable descending score order, whatever kind query fails |
| `VectorSearch.QueryKind` | internal/vec/sqlitevec.go:128-158 | the hits of one kind among its K nearest rows |
| `VectorSearch.TopKIsExact` | internal/vec/sqlitevec.go:119-165 | cutting each kind to K before merging gives the same sequence as stable-sorting everything and cutting to K |
| `VectorSearch.SortIsMerge` | internal/vec/sqlitevec.go:159-160 | the stable sort of two ranked lists is their merge |
| `VectorSearch.MergeTake` | internal/vec/sqlitevec.go:126-164 | the first K of a merge need only the first K of each side |
| `VectorSearch.ScoreFallsWithDistance` | internal/vec/sqlitevec.go:147-152 | the clamped score never rises with distance, under any monotone rounding |
| `VectorSearch.ScoreReflectsDistance` | internal/vec/sqlitevec.go:147-152 | above the clamp the score order is exactly the distance order |
| `VectorSearch.ScoreIsCosine` | internal/vec/sqlitevec.go:147-152 | for unit vectors the score is the rounded cosine, zero for a negative one |
| `Reconcile.CollectRelated` | internal/wiki/reconcile.go:248-317 | returns exactly the pages reachable in at most maxHops steps, each once, nearer ones first; an error exactly when the page query fails at a hop that reaches something new |
| `Reconcile.ReachedIffWalk` | internal/wiki/reconcile.go:248-317 | reached by hop h means that a walk of at most h steps from a seed ends there |
| `Reconcile.Saturated` | internal/wiki/reconcile.go:257-267 | once a hop adds nothing, no later hop adds anything |
| `Reconcile.NearerFirst` | internal/wiki/reconcile.go:257-315 | what a hop reaches first is never reached before what an earlier hop reached |
| `Reconcile.Neighbours` | internal/wiki/reconcile.go:282-312 | pages step along edges both ways, other ids along outgoing has_page edges only |
| `Reconcile.Expand` | internal/wiki/reconcile.go:280-314 | one level: its pages in order, and exactly the unvisited neighbours for the next |
| `EdgeTable.Store.AddEdgePairs` | internal/store/edges.go:39-81 | a batch written in order, the reverse of every contradiction with it, keeping the first creation time of an existing row |
| `EdgeTable.AddPairsAre` | internal/store/edges.go:39-81 | row by row after a batch, for every kind: present exactly when it was or the batch writes it, with the weight of the last edge that writes it, and with the creation time of the first write ever |
| `EdgeTable.AddPairsSymmetric` | internal/store/edges.go:39-69 | a batch leaves every contradiction present both ways |
| `EdgeTable.RunKeepsPairs` | internal/store/edges.go:39-162 | over every run of batches and deletions two-way contradictions agree on weight, and a one-way one points at a source deleted earlier |
| `EdgeTable.DeleteSymmetricIff` | internal/store/edges.go:153-162 | a deletion leaves contradictions two-way exactly when nothing else contradicts the source |
| `EdgeTable.Store.RecordPendingLinks` | internal/store/pending_links.go:17-36 | adds the dead links of a source with the current time and changes no other |
| `EdgeTable.Store.ClearPendingLinks` | internal/store/pending_links.go:45-61 | removes exactly the named dead links of a source |
| `Rebuild.RebuildEdges` | internal/wiki/writer.go:573-661 | each touched page ends with references exactly to the existing normalized targets of its body and dead links exactly for the missing ones; every other row is untouched |
| `Rebuild.CollectLinks` | internal/wiki/writer.go:585-606 | every link of the pages to another page, normalized, and its targets once each |
| `Rebuild.Partition` | internal/wiki/writer.go:631-646 | links to stored pages become references, the others dead links |
| `Rebuild.ClearSources` | internal/wiki/writer.go:621-629 | drops out-edges and dead links of the touched pages only |
| `Rebuild.TargetsAre` | internal/wiki/writer.go:594-605 | a target is listed exactly when some raw link of the body normalizes to it, unless empty or the page itself |
| `Rebuild.RebuildTwice` | internal/wiki/writer.go:573-661 | a second rebuild changes nothing but timestamps |
| `Rebuild.RebuildsCompose` | internal/wiki/writer.go:573-661 | rebuilding two sets of pages in turn is rebuilding their union |
| `Rebuild.InStepAfterRunIff` | internal/wiki/writer.go:568-661 | an index in step with all pages stays so across a run exactly when no untouched page links to a page the run created |
| `Rebuild.StaleLink` | internal/wiki/writer.go:568-661 | such a link stays recorded as dead and its reference is missing |
| `Rebuild.ContradictionsSurviveIff` | internal/wiki/writer.go:621-629 | a rebuild keeps contradictions two-way exactly when none runs from an untouched page into a touched one |
| `Replacement.ResolveReplacement` | internal/store/replace.go:24-93 | the walk along sequel edges over archived points, with its page lookup, wherever the walk ends |
| `Replacement.SuccessorIffChain` | internal/store/replace.go:24-93 | a successor is returned exactly when a chain of stored edges, each the first sequel edge of its source, leads over archived points to a stored one that is not archived; from a page the chain starts where its first has_page edge comes from; its page is the first stored has_page target |
| `Replacement.FirstTargetIs` | internal/store/replace.go:53-61 | a scan for a kind returns an id exactly when the first stored edge of that kind leads to it, whatever other edges there are |
| `Replacement.FirstSourceIs` | internal/store/replace.go:30-39 | from a page the walk starts exactly where the first stored has_page edge comes from |
| `Replacement.FirstPageIs` | internal/store/replace.go:76-90 | the page returned is that of the first has_page edge to a stored page, and none exactly when there is no such edge |
| `Replacement.WalkEndsIff` | internal/store/replace.go:47-74 | the walk ends exactly when the chain of archived sequels never comes back to an id, and then within as many hops as there are archived points |
| `Replacement.StopsWithinPoints` | internal/store/replace.go:47-74 | a walk that ends passes each archived point at most once |
| `Replacement.CycleNeverEnds` | internal/store/replace.go:47-74 | between two archived points that are sequels of each other the walk never ends |
| `Recall.AnswerHit` | internal/recall/recall.go:678-730 | the recursive substitution: the live end of the chain of replacements, or nothing |
| `Recall.RedirectIsStored` | internal/recall/recall.go:721-729 | a substitute is stored, and is live unless it is a page stale in its turn |
| `Recall.RedirectIs` | internal/recall/recall.go:721-729 | a stale hit is replaced by the first stored page of the end of its chain of sequel edges, or by that end itself, with its score kept |
| `Recall.AnswersIff` | internal/recall/recall.go:721-729 | the recursion ends exactly when neither the substitutions nor a walk to one of their successors run in a cycle, and then within one more substitution than there are stale pages |
| `Recall.ResultIsLive` | internal/recall/recall.go:678-730 | whatever is shown is a live entity under its own id |
| `Recall.LiveShowsItself` | internal/recall/recall.go:678-720 | a hit on a point that is not archived, or on an active page, shows that entity |
| `Recall.ResultOfRedirected` | internal/recall/recall.go:721-729 | a stale hit shows what its replacement shows, one substitution further |
| `Hits.DedupeHits` | internal/recall/recall.go:229-240 | keeps the first hit on each id |
| `Hits.FirstPerIdIs` | internal/recall/recall.go:229-240 | a hit is kept exactly when no earlier hit has its id, and kept ids are distinct |
| `Hits.FirstPerIdPicks` | internal/recall/recall.go:229-240 | kept are the hits at exactly the positions whose id does not occur before, in the order found |
| `Hits.DedupeKeepsBestIff` | internal/recall/recall.go:226-240 | the best hit on every id survives the deduplication exactly when each first hit is the best one |
| `Hits.OrdersAgreeIff` | internal/recall/recall.go:556-557 | deduplicating and then ranking gives the same list as ranking and then deduplicating exactly when each first hit is the best one on its id |
| `Hits.DescendingKeepsBest` | internal/recall/recall.go:578-606 | on hits in descending score, as the retrieval routes rank them, the best hit on every id survives |
| `Hits.DisjointKeepsBest` | internal/recall/recall.go:549-557 | it survives as well in two such lists one after the other that have no key in common, as those of two namespaces |
| `Recall.Search` | internal/recall/recall.go:542-576 | the results are what the ranked hits show, each one that shows anything and no other, in rank order, all live; the ranked hits are the best ones found (see `Recall.RankedIsBest`) |
| `Recall.RankedIsBest` | internal/recall/recall.go:556-561 | the hits kept descend in score, have distinct ids, are as many as asked for or as there are ids, and no first hit left out outscores one kept |
| `Grading.LoadEntity` | internal/verify/grade.go:66-104 | title and grade of a live entity; nothing for a missing, archived or non-active one |
| `Grading.PageGradeIsStrongest` | internal/verify/grade.go:94-103 | a page carries the grade of the earliest of its most confident claims |
| `Grading.GradeForRecall` | internal/verify/grade.go:15-48 | every hit graded as itself or as its first replacement when that is live, in order, others left out |
| `Grading.GradeForIs` | internal/verify/grade.go:15-48 | a hit is graded exactly when one is kept for it, with that one's title and grade |
| `Grading.GradedAreLive` | internal/verify/grade.go:15-48 | exactly the hits kept come out, in order; each is live and carries its own title and grade |
| `Grading.GradingSeesOneStep` | internal/verify/grade.go:27-39 | a stored hit on which grading comes back is kept exactly when search answers it with an entity at most one replacement away, and then as that entity |
| `Grading.AnsweredIsGradable` | internal/verify/grade.go:27-39 | grading comes back on every stored hit that search answers |
| `Grading.GoneIsNotShown` | internal/recall/recall.go:682-685 | search shows nothing for a hit on a missing entity |
| `Grading.GradingCanDropWhatSearchShows` | internal/verify/grade.go:27-39 | a store in which search shows the second replacement of a hit that grading drops |
| `Grading.SharedPageIsNeverAnswered` | internal/recall/recall.go:721-729 | a store in which a superseded page leads back to itself: the substitution never ends, while grading comes back |
| `Selection.WhereIs` | internal/fork/fork.go:126-132 | the listed positions are exactly those of the elements that pass the test |
| `Selection.NthPosition` | internal/fork/fork.go:137-138 | the k-th listed position is preceded by exactly k others |
| `Turns.Summarize` | internal/fork/fork.go:526-551 | the numbered lines of the rendered messages, written one after the other |
| `Turns.SnapshotBlocks` | internal/fork/fork.go:526-551 | the rendering is one block per rendered message, nothing between: its number from 1, its role and its trimmed text |
| `Turns.DecimalIs` | internal/fork/fork.go:535-541 | the number written reads back as the number |
| `Turns.CollectIndices` | internal/fork/fork.go:411-423 | the positions of exactly the messages with text said by user or assistant, and by tools where included, in order |
| `Turns.NthIndexIsNthTurn` | internal/fork/fork.go:405-423 | the k-th position is that of the message numbered k, with its role and trimmed text |
| `Turns.SnapshotIsPrefix` | internal/fork/fork.go:519-525 | the rendering of a window is a prefix of that of any extension, and a proper one exactly when the extension renders a message |
| `Turns.MalformedRangesClamp` | internal/fork/fork.go:431-453 | a given range is brought into order and into bounds, unless it starts beyond the last turn, when it is left as it is |
| `Turns.MappedRangeHoldsTurns` | internal/fork/fork.go:425-454 | for 1 <= s <= e <= count the rendered messages inside the mapped range are exactly numbers s to e |
| `Turns.DialogSegment` | internal/wiki/writer.go:494-526 | the quoted messages of the range clamped to the transcript, and nothing for (0, 0) |
| `Turns.QuoteBlocks` | internal/wiki/writer.go:512-525 | one block per message: the words of the user and of the assistant each in their own form, nothing for any other message |
| `Turns.SegmentIsExactIff` | internal/wiki/writer.go:494-526 | the segment quoted for a mapped range says exactly what turns s to e say, except for the first message of the transcript alone |
| `Turns.QuoteSkips` | internal/wiki/writer.go:512-525 | quoting depends on the rendered messages only |
| `Turns.DialogSpan` | internal/wiki/writer.go:250-265 | the segment from the least start to the greatest end of a group |
| `Turns.SpanIsHull` | internal/wiki/writer.go:254-263 | the span reaches over every range of the group and no further |
| `Turns.UnknownRangeQuotesFromStart` | internal/wiki/writer.go:254-264 | one unknown range in a group makes the segment start at the first message |
| `Turns.GroupIsKnownSpanIff` | internal/wiki/writer.go:250-265 | a group is quoted as its known ranges span exactly when no range is unknown or the messages an unknown one adds at the start say nothing |
| `Windows.SplitPrefixWindows` | internal/fork/fork.go:119-152 | one prefix per step of user turns, ending on the turn that completes it, then the full transcript, capped to the longest |
| `Windows.CappedAreLast` | internal/fork/fork.go:144-151 | the cap keeps the last windows, as many as it allows or as there are |
| `Windows.PrefixSplitUnique` | internal/fork/fork.go:119-152 | that description has one answer only |
| `Windows.CappedWindowsGrow` | internal/fork/fork.go:144-151 | windows are strictly growing prefixes that end in the full transcript, also after the cap |
| `Windows.WindowRenderingsGrow` | internal/fork/fork.go:109-118 | the rendering of every window is a prefix of every later one, strictly exactly when a message between their ends is rendered |
| `Windows.SplitNonPrefixWindows` | internal/fork/fork.go:158-186 | consecutive windows, each full one ending on its userStep-th user turn, the last shorter, capped to the last ones |
| `Windows.GroupSplitUnique` | internal/fork/fork.go:158-186 | that description has one answer only |
| `Windows.CappedGroupsAreSuffix` | internal/fork/fork.go:178-185 | the windows join to the transcript, or to a suffix of it after the cap |
| `Windows.RangeIsGlobalIff` | internal/fork/fork.go:405-410 | a range mapped inside a window is the transcript range of the same turns exactly when the window starts at the transcript start |
| `Windows.GroupRangeIsGlobalIff` | internal/fork/fork.go:321-321 | of the separate windows kept, only the first maps its turns to transcript positions, and none once the cap has dropped a window |
| `Usage.Table.AddUsage` | internal/store/usage.go:22-36 | the additive upsert; a failed write changes nothing |
| `Usage.Tracker.Add` | internal/usage/usage.go:92-107 | new accumulator, flag and rows for every clock reading and write outcome, in both modes |
| `Usage.Tracker.Flush` | internal/usage/usage.go:68-87 | a flush on the same day adds the accumulator to the row, one on a later day discards it |
| `Usage.Tracker.Today` | internal/usage/usage.go:111-119 | resets on a change of day and returns the accumulator |
| `Usage.Tracker.Close` | internal/usage/usage.go:123-129 | flushes what is pending; nothing in synchronous mode |
| `Usage.NothingElseIsLost` | internal/usage/usage.go:68-119 | on every run and for every day the additions are the row, the pending part and what a change of day or a failed write dropped |
| `Usage.RowsNeverExceed` | internal/usage/usage.go:68-119 | no row exceeds the additions of its day, whatever the clock and the writes do |
| `Usage.SyncRowsAreExact` | internal/usage/usage.go:104-106 | in synchronous mode with successful writes every row is its day's additions |
| `Usage.SyncTodayIsExact` | internal/usage/usage.go:92-119 | in synchronous mode, with a clock that does not run backwards, what is reported for today is all that was added today, whatever the writes do |
| `Usage.TodayIsExact` | internal/usage/usage.go:68-107 | in batched mode, with a clock that does not run backwards, row and accumulator of the current day are its additions |
| `Usage.FailedFlushIsLost` | internal/usage/usage.go:81-86 | a flush whose write fails loses what it carried for good: row and accumulator stay short of the day's additions by just that |
| `Usage.PastDayIsShortBy` | internal/usage/usage.go:75-80 | a past day's row is its additions less what was pending when the day ended |
| `Usage.PastDayIsExactIff` | internal/usage/usage.go:75-80 | a past day's row is exact exactly when nothing was pending as the day ended |

## Left out

- Replacement.ResolveReplacement: called only where the walk ends; `Replacement.WalkEndsIff` says where that is, and the endless walk has no result to state.
- Recall.AnswerHit: called only where the chain of substitutions ends, for the same reason; a store error, which the code reads as "nothing found", is not modelled.
- Recall.Search: one namespace, and a list of hits after whose cut every hit is answered (see `Recall.AnswersIff`); the per-request entity cache, keyed by id alone, can mix namespaces and is not modelled, nor are edges, claims and body truncation of a result.
- Grading.GradeForRecall: called only where the walks of its stale hits end; event times and the note text are not modelled; store errors are not distinguished from missing entities.
- Embedding.Embedder.EmbedBatch: the two loops over the response (slots, cache) are one loop in the source; a caller with no cache behaves as with capacity zero, and the digest in the cache key is taken as injective.
- MergeStage.DedupeMergeSerially: a serial reference for the parallel stage, whose goroutines are the steps of `Parallel`; answers of the model and the embedder are functions of their input within one run.
- Clustering.ConnectedComponents: cosine over floating-point vectors is an arbitrary function into the reals.
- VectorSearch.Search: the database query for one kind is "the K nearest rows, nearest first"; a row that fails to scan, keyword search and upserts are not modelled.
- Dedupe.DedupeAll: slices share no storage in the model, so an append that writes into another candidate's tag array is not captured.
- ClusterStage.Cluster: the embedding of a candidate is given; the map from a member to its history, kept beside the component, is not modelled; the answers of searches and fetches are fixed for one run, so two fetches of an id give the same vector.
- Rebuild.RebuildEdges: a store error half way through is not modelled; the batch insert is one step.
- Reconcile.CollectRelated: a failing edge query is read as an empty list, as the code reads it; the page contents are opaque.
- Usage.Tracker.Add: 64-bit overflow of the counters is not modelled.
- Turns.Summarize: byte-level truncation is a parameter of the written form, and Unicode white space is a parameter of trimming.
- The race of a sender with a closed channel, which panics in the source, is modelled as dropping the job.
- Prompts, JSON, HTTP, MCP, web search and configuration: the calls behind the algorithms.
- Adjudicate and Persist: they copy answers of the model into rows and would add only easy members.
- The recall context cache and the event-time filters depend on wall time and may be stale by design.
- Graph JSON, kanban exclusion, namespaces, tags, bridges, installers and the user interface: one-branch checks and plumbing.
