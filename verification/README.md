# Verified models of SGLang's workload tools and prefix cache

This project models, in Dafny, the parts of SGLang whose correctness rests on an invariant rather than
on one line of code, and proves what those parts are for:

* **The prefix cache of the runtime** (`python/sglang/srt/mem_cache/radix_cache.py`): a page-aligned radix tree
  from token prefixes to KV slots, with splitting, locking and eviction, and the hand-over of slots between free pool,
  cache and requests. Modules `Pages`, `RadixTree`, `RadixOps`, `RadixLocks`, `RadixWalk`, `RadixCache`, `SlotOwnership`.
* **Trace layout** (`scripts/convert_otel_2_perfetto.py`): the span forest built from arbitrary parent ids, its recursive
  walks, the first-fit packing of spans onto numbered lines, and the conversion of a whole trace. Modules `SpanForest`,
  `SpanObjects`, `SpanLayout`, `LayoutObjects`, `LayoutReference`, `TraceSpec`, `TraceEmission`.
* **The multi-turn workload protocol** (`benchmark/hicache/bench_multiturn.py`): sender and response handler as a
  transition system over shared counters, queues, histories, a pool of follow-up questions and a round
  barrier. Modules `Rounds`, `MultiTurn`, `MultiTurnSafety`, `MultiTurnHistory`, `MultiTurnBarrier`,
  `MultiTurnProgress`, `MultiTurnFailures`.
* **The turn-recycling request queue** (`benchmark/hicache/bench_serving.py`). Modules `TurnQueue`, `TurnQueueOrder`,
  `TurnQueueProgress`.
* **Edit distance** (`benchmark/ocr/eval_utils.py`). Module `EditDistance`.
* **Mixed workload users and window** (`benchmark/hicache/bench_mix.py`). Modules `UserFlow`, `MixSlots`.
* **Nightly wheel index** (`scripts/update_nightly_whl_index.py`). Modules `WheelIndex`, `WheelLinks`, `WheelOrder`.
* **Smaller cores**: cyclic filtering (`ChatFilter`), marker-block replacement (`MarkerBlock`), inter-token latencies
  (`TokenLatency`), partition of checkpoint work across ranks (`Partition`). `Common` and `Arithmetic` hold what
  several modules share.

`dafny verify dfyconfig.toml` checks everything. Objects that the source updates in place are classes
(`LineGraph`, `OtelSpan`, `UserGenerator`, `IndexFile`, `Cache`, `KvManager`), loops are methods proved against functions, and concurrent
protocols are transition systems: a list of actions is a run, `Possible` says that it can be taken
and `Exec` where it leads, so a lemma about `Exec(cfg, Start(cfg), run)` is about every interleaving.

## Where the code does not do what it says

The models follow the code. Where a property one would expect fails, there is a lemma with a concrete
input and one that says exactly when the property holds.

* *Spans on a line do not overlap*: false when a span whose adjusted end equals its start is dropped, unchecked, inside
  a stored one (`ShortcutCanHit`); true exactly on the runs without such a hit (`NoOverlapIff`), in particular on inputs
  without such spans (`NoZeroLengthNoOverlap`).
* *Edit ratio "1.0 = completely different"* (docstring): strings without a common character do have ratio 1
  (`CompletelyDifferent`), but so have "ab" and "ba" (`RatioOneIsNotCompletelyDifferent`). The ratio is 1 exactly when
  every edit script keeps at most as many characters as it deletes and at most as many as it inserts (`RatioOneIff`).
* *The user queue is ordered by start time*: the insertion uses the scan's loop variable instead of the position
  found, and a due user can be passed over (`DueUserCanBePassedOver`); order survives exactly when the new start is not
  later than the last one (`OrderSurvivesIff`).
* *A failed response gives its place back*: in the mixed workload it never does. For every limit there is a run in which
  failures fill the window and stop the sender for good (`FailuresCanFillTheWindow`); a state is stuck exactly when that
  has happened or the sender has left, with no response waiting (`StuckIff`).
* *A multi-turn run ends in spite of failures*: with two clients of two rounds, one failed first response freezes the
  round barrier and keeps both loops running for ever (`TwoByTwoHangs`, from `FailureFreezesBarrier` and `LoopsNeverEnd`; for
  every setup in `BarrierCanFreeze` and `LoopsCanHang`). At rest the progress bar is full, so that the loops can end,
  exactly when no failure was hopeless and nobody is held back (`RestingProgress`).
* *The response handler leaves when all is done*: it can leave with the last response unread (`ExitCanLoseResponse`);
  that happens exactly when a request was being answered at its last time-out or was answered after it
  (`LastResponseLostIff`).
* *Wheel index "ordered by commit count (newest first)"* (module docstring): the code never looks at the commit count and
  puts the newest run first (`NewestFirst`); building an older commit after a newer one breaks the promised order
  (`OlderCommitListedFirst`). The order holds exactly when the runs that still have links in the index were made in order of
  commit count (`ByCommitsIff`).
* *Inter-token latencies cover the time since the first token*: not when a token count goes back (`GoingBackLosesTime`); for
  chunks arriving one after the other they do exactly when it never goes back (`TelescopesIff`), and the time lost is known
  in every case (`LatenciesAddUp`).
* *Replacing the generated block twice equals replacing it once*: false for cards that bring an end marker of their own
  (`CardsWithEndMarker`), true for all others (`ReplaceTwiceIff`).

## Model

| member | source | states |
|---|---|---|
| `RadixWalk.CommonPrefix` | python/sglang/srt/mem_cache/radix_cache.py:181-206 | the doubling windows followed by a binary search return the length of the longest common prefix, for every two keys |
| `RadixWalk.MatchPages` | python/sglang/srt/mem_cache/radix_cache.py:181-215 | the result is the longest common prefix in whole pages: it agrees, is aligned, and no longer aligned prefix agrees |
| `RadixCache.PageAligned` | python/sglang/srt/mem_cache/radix_cache.py:150-154 | the longest prefix of a key that fills whole pages |
| `RadixCache.Cache.constructor` | python/sglang/srt/mem_cache/radix_cache.py:353-366 | an empty cache: a root that is locked for good, no leaves, sizes zero, all invariants |
| `RadixTree.ChildToward` | python/sglang/srt/mem_cache/radix_cache.py:217-229 | in a well-formed tree a node that is a proper prefix of another has a child, filed under the next page, on the way to it |
| `RadixTree.NoNodeInside` | python/sglang/srt/mem_cache/radix_cache.py:678-702 | no node lies strictly inside the edge of another |
| `RadixTree.HoldsUnique` | python/sglang/srt/mem_cache/radix_cache.py:678-702 | a page-aligned prefix has one sequence of slots, whichever node it is read from |
| `RadixTree.ReachIsLongest` | python/sglang/srt/mem_cache/radix_cache.py:678-702 | the walk ends at a cached prefix, and no longer page-aligned prefix of the key is cached |
| `RadixOps.SplitWellFormed` | python/sglang/srt/mem_cache/radix_cache.py:704-727 | splitting an edge keeps the tree well-formed |
| `RadixOps.SplitHoldsSame` | python/sglang/srt/mem_cache/radix_cache.py:704-727 | a split changes neither the prefixes held nor any of their slots |
| `RadixOps.AddHolds` | python/sglang/srt/mem_cache/radix_cache.py:777-789 | a new leaf adds exactly the prefixes of its path, with the slots of its parent followed by its own, and changes no other |
| `RadixOps.RemovePathValue` | python/sglang/srt/mem_cache/radix_cache.py:810-818 | removing a leaf changes no slot of what remains |
| `RadixLocks.SplitKeepsLocks` | python/sglang/srt/mem_cache/radix_cache.py:704-713 | copying the lock counter to the upper half is right: every counter is still the number of holders at or below |
| `RadixLocks.FewerBelow` | python/sglang/srt/mem_cache/radix_cache.py:622-635 | a node never has more holders than a node above it |
| `RadixLocks.SplitTokens` | python/sglang/srt/mem_cache/radix_cache.py:704-727 | a split keeps the number of locked and of unlocked tokens |
| `RadixWalk.SomethingToEvict` | python/sglang/srt/mem_cache/radix_cache.py:592-620 | while unlocked tokens remain there is an unlocked leaf, so eviction cannot get stuck above one |
| `RadixCache.Cache.SplitAt` | python/sglang/srt/mem_cache/radix_cache.py:704-727 | the split keeps all invariants, all contents and every slot; the new node holds the upper part |
| `RadixCache.Cache.UpdateLeafStatus` | python/sglang/srt/mem_cache/radix_cache.py:820-833 | the node is in the leaf set afterwards exactly when it is an unlocked leaf; no other membership changes |
| `RadixCache.Cache.MatchPrefix` | python/sglang/srt/mem_cache/radix_cache.py:376-434 | returns the longest cached prefix of the page-aligned key and its slots; what the cache holds stays the same and all invariants are kept |
| `RadixCache.Cache.Insert` | python/sglang/srt/mem_cache/radix_cache.py:436-456 | the reported prefix is the longest that was cached; it keeps its slots, the rest gets those of the value, nothing else changes; sizes and slots grow by exactly the rest |
| `RadixCache.Cache.Descend` | python/sglang/srt/mem_cache/radix_cache.py:756-775 | the insertion walk stops at the longest cached prefix, splitting at most where the key diverges, and leaves contents unchanged |
| `RadixCache.Cache.AddNewLeaf` | python/sglang/srt/mem_cache/radix_cache.py:777-789 | leaf, size counter and leaf set after the addition |
| `RadixCache.Cache.IncLockRef` | python/sglang/srt/mem_cache/radix_cache.py:622-635 | one more holder of the node: counters on its path and only there go up, tokens move from evictable to protected, contents stay |
| `RadixCache.Cache.DecLockRef` | python/sglang/srt/mem_cache/radix_cache.py:637-656 | one holder less, no counter drops below zero, tokens move back exactly where the last holder left |
| `RadixCache.Cache.Evict` | python/sglang/srt/mem_cache/radix_cache.py:592-620 | frees at least the wanted tokens or everything unlocked, and the last leaf freed was needed; only unlocked nodes go, the others keep slots and locks; freed and remaining slots together are the old slots |
| `RadixCache.Cache.DeleteLeaf` | python/sglang/srt/mem_cache/radix_cache.py:810-818 | tree, size and leaf set after removing a leaf |
| `RadixCache.MatchAfterInsert` | python/sglang/srt/mem_cache/radix_cache.py:376-456 | matching right after inserting finds the whole key, with the inserted slots behind those cached before |
| `RadixCache.HeldPrefixSurvives` | python/sglang/srt/mem_cache/radix_cache.py:592-656 | eviction changes no slot of any page-aligned prefix of a held node |
| `SlotOwnership.KvManager.Admit` | python/sglang/srt/managers/schedule_batch.py:1353-1391 | a request starts with the longest cached prefix of its prompt, locked; cache contents and accounts kept |
| `SlotOwnership.KvManager.Extend` | python/sglang/srt/mem_cache/allocation.py:332-375 | new tokens take their slots from the free pool; accounts kept |
| `SlotOwnership.KvManager.CacheUnfinishedReq` | python/sglang/srt/mem_cache/radix_cache.py:515-583 | the whole pages of the row are cached in the same way, exactly the duplicates are freed, the row is rewritten to the cache's slots and is from the cached prefix on what it was, and the longer prefix is locked |
| `SlotOwnership.KvManager.CacheFinishedReq` | python/sglang/srt/mem_cache/radix_cache.py:458-513 | with insertion: the whole pages of the row are cached, behind the longest prefix cached before, with the request's own slots, and nothing else changes; exactly the duplicates and the unaligned end are freed. Without: the cache holds the same and the whole tail is freed. The request is gone, every slot accounted for |
| `SlotOwnership.KvManager.Evict` | python/sglang/srt/mem_cache/radix_cache.py:592-620 | evicted slots return to the pool, only unlocked nodes go and no more than needed, and no request loses a slot of its prefix |
| `SlotOwnership.OneOwner` | python/sglang/srt/mem_cache/radix_cache.py:458-620 | in every state kept by these operations, a slot is free, in the cache, or in the private tail of exactly one request, and in only one of these |
| `SpanLayout.BisectLeft` | scripts/convert_otel_2_perfetto.py:59 | on a list split by the probe, the split point |
| `SpanLayout.NeighboursDecide` | scripts/convert_otel_2_perfetto.py:58-70 | on a line keeping the layout invariant, the two-neighbour check answers exactly what a scan of all stored spans would |
| `SpanLayout.InsortKeepsChainIff` | scripts/convert_otel_2_perfetto.py:72-73 | an insertion keeps the line invariant exactly when the span is compatible with every stored one |
| `SpanLayout.CheckedInsertionKeepsChain` | scripts/convert_otel_2_perfetto.py:101-114 | a span that passed the check can be stored, even if its adjusted end lies before its start |
| `SpanLayout.ZeroLengthInsertion` | scripts/convert_otel_2_perfetto.py:98-99 | the shortcut is harmless exactly when the skipped check would have passed, that is when no stored span strictly contains the point |
| `SpanLayout.StepKeepsInvariant` | scripts/convert_otel_2_perfetto.py:95-120 | every placement keeps lines numbered 1..n, one slot record per line, and each line holding exactly its spans |
| `SpanLayout.RunKeepsInvariant` | scripts/convert_otel_2_perfetto.py:279-309 | the same after any sequence of requests and spans |
| `SpanLayout.NoOverlapIff` | scripts/convert_otel_2_perfetto.py:279-309 | over every run, spans on the same line of a process are apart if and only if no zero-length span hit a stored one |
| `SpanLayout.NoZeroLengthNoOverlap` | scripts/convert_otel_2_perfetto.py:95-120 | without spans of adjusted length zero, spans on a line never overlap and every line keeps its invariant |
| `SpanLayout.ShortcutCanHit` | scripts/convert_otel_2_perfetto.py:98-99 | (5, 5) after (0, 10) in one request does overlap |
| `SpanLayout.OpensOnlyWhenAllConflict` | scripts/convert_otel_2_perfetto.py:111-120 | a new line is opened only for a span that conflicts with every line of its process |
| `SpanLayout.ChoosesFirstFit` | scripts/convert_otel_2_perfetto.py:95-120 | on lines that keep the invariant, a line is chosen exactly when it is the request's own and the span has length zero or conflicts with no span there, or else the least line without a conflict |
| `LayoutReference.LogIsLayout` | scripts/convert_otel_2_perfetto.py:58-70 | the stored intervals of a line conflict with a span exactly when a span placed there earlier does |
| `LayoutReference.RequestFollowsReference` | scripts/convert_otel_2_perfetto.py:279-293 | in every run without a shortcut hit, each span goes to the request's latest line of its process if it has length zero or fits, else to the first line it fits on, in terms of earlier placements alone |
| `LayoutObjects.SpanLayoutContainer.InsertSpan` | scripts/convert_otel_2_perfetto.py:72-73 | the container holds exactly one span more, and a line that kept the layout invariant keeps it exactly when the span is compatible with every span already there |
| `LayoutObjects.LineGraph.AddLine` | scripts/convert_otel_2_perfetto.py:104-120 | the objects hold the layout with one more empty line and its slot record |
| `LayoutObjects.LineGraph.FindLine` | scripts/convert_otel_2_perfetto.py:95-120 | the nested dictionaries return the line of the layout model, opening it when new, and update the request's status; on lines that keep the invariant it is the request's own line if the span has length zero or fits there, else the first line on which it fits |
| `LayoutObjects.LineGraph.PlaceOne` | scripts/convert_otel_2_perfetto.py:282-292 | finding and storing in place is one step of the layout model |
| `LayoutObjects.LayoutRequest` | scripts/convert_otel_2_perfetto.py:280-293 | one request is a fresh status followed by one step per span |
| `LayoutObjects.LayoutRequests` | scripts/convert_otel_2_perfetto.py:278-309 | the nested loops end in the state of the run that `NoOverlapIff` and `RunKeepsInvariant` are about |
| `SpanForest.DepthIsUnique` | scripts/convert_otel_2_perfetto.py:172-196 | whatever the ids, no span hangs at two depths below a root |
| `SpanForest.OwnerIff` | scripts/convert_otel_2_perfetto.py:173 | an id stands for a span exactly when some span carries it, and then for the last one |
| `SpanForest.KidsAreChildren` | scripts/convert_otel_2_perfetto.py:179-186 | the child list of a span holds, in input order, exactly the spans of other modules than request and mooncake whose parent id it is the last to carry |
| `SpanForest.DepthBound` | scripts/convert_otel_2_perfetto.py:172-196 | depths are below the number of spans, which is why the recursive walks end |
| `SpanForest.WalkVisits` | scripts/convert_otel_2_perfetto.py:199-227 | a walk visits exactly the spans that reach its start by following parents |
| `SpanForest.WalkDistinct` | scripts/convert_otel_2_perfetto.py:226-227 | no walk visits a span twice |
| `SpanForest.LaidOutIsDepthTwo` | scripts/convert_otel_2_perfetto.py:231-253 | the spans given a line are exactly those two levels below a root, each once |
| `SpanForest.VisitedExactlyOnce` | scripts/convert_otel_2_perfetto.py:262-293 | in whatever order they are sorted, the walks visit exactly the spans at depth two or more, each exactly once |
| `SpanObjects.SpanIdMap` | scripts/convert_otel_2_perfetto.py:173 | an id is in the map exactly when some span carries it, and stands for the last one that does |
| `SpanObjects.BuildTree` | scripts/convert_otel_2_perfetto.py:172-196 | every child list holds exactly the non-root spans whose parent id stands for its owner, in input order; the roots come back in order |
| `SpanObjects.Convert` | scripts/convert_otel_2_perfetto.py:199-227 | the recursive conversion ends and applies the conversion along the walk |
| `SpanObjects.SetTid` | scripts/convert_otel_2_perfetto.py:262-266 | the recursive numbering applies the line number along the walk |
| `SpanObjects.Gather` | scripts/convert_otel_2_perfetto.py:396-407 | the emitted list is the span records along the walk, in order; events and links are left out |
| `SpanObjects.GenerateThreads` | scripts/convert_otel_2_perfetto.py:237-253 | the spans below each thread are converted with its process id and listed for layout |
| `SpanObjects.GenerateSpans` | scripts/convert_otel_2_perfetto.py:230-253 | the same over all roots; the result lists, root by root, the spans to be laid out |
| `SpanObjects.AppliedOnce` | scripts/convert_otel_2_perfetto.py:199-227 | along a walk without repetition each span is changed once and no other is touched |
| `SpanObjects.ConvertedExactlyOnce` | scripts/convert_otel_2_perfetto.py:206-211 | every span at depth two or more has its end moved back by 1000 exactly once and carries the process id of the thread above it |
| `SpanObjects.OthersUntouched` | scripts/convert_otel_2_perfetto.py:230-253 | no other span is changed, cyclic and orphaned ones included |
| `TraceSpec.NumberedOnce` | scripts/convert_otel_2_perfetto.py:262-293 | after numbering, every span carries the line given to its ancestor at depth two and is otherwise unchanged |
| `TraceSpec.EmissionIsComplete` | scripts/convert_otel_2_perfetto.py:396-417 | the walks over any two permutations of the laid-out spans, one for numbering and one for gathering, emit one record per span at depth two or more and no other, each on the line of its ancestor at depth two |
| `TraceEmission.SortByStart` | scripts/convert_otel_2_perfetto.py:270-273 | the spans of a root are permuted into order of start time |
| `TraceEmission.SortRequests` | scripts/convert_otel_2_perfetto.py:275-277 | the requests are permuted into order of the start of their first span |
| `TraceEmission.LayOut` | scripts/convert_otel_2_perfetto.py:278-293 | laying out and numbering the span objects follows the layout run on their converted times, and numbers each walk with the line of its placement |
| `TraceEmission.GatherAll` | scripts/convert_otel_2_perfetto.py:415-417 | the records of the walks of all roots, in order |
| `TraceEmission.ConvertTrace` | scripts/convert_otel_2_perfetto.py:445-458 | build, convert, sort, lay out, number and gather: fails exactly when a root has nothing to lay out; otherwise one record for every span at depth two or more and no other, with start, shortened duration, process of its thread and line of its ancestor at depth two; the lines are those of the layout run on the requests, one per root, sorted by first start, each sorted by start, and `NoOverlapIff` applies to it |
| `TraceEmission.EmittedApart` | scripts/convert_otel_2_perfetto.py:269-309 | without a shortcut hit, the emitted records of two spans at depth two that share process and line do not overlap in time |
| `Rounds.ResolveRounds` | benchmark/hicache/bench_multiturn.py:234-250 | accepted bounds satisfy 1 <= min <= max; exactly which options are rejected |
| `Rounds.ParticipantsCounted` | benchmark/hicache/bench_multiturn.py:263-266 | the count per round is the size of the set of clients that take part in it |
| `Rounds.NonIncreasing` | benchmark/hicache/bench_multiturn.py:263-266 | later rounds have no more clients |
| `Rounds.RoundsAddUp` | benchmark/hicache/bench_multiturn.py:263-267 | counting requests by round or by client gives the same total |
| `MultiTurnSafety.StepKeepsSafe` | benchmark/hicache/bench_multiturn.py:388-544 | every action of either thread keeps placement, counters, window, pool and payload invariants |
| `MultiTurnSafety.RunIsSafe` | benchmark/hicache/bench_multiturn.py:388-544 | every state of every interleaving satisfies them, failures included |
| `MultiTurnSafety.WindowRespected` | benchmark/hicache/bench_multiturn.py:402-413 | sent minus completed is the number of outstanding requests and never exceeds the limit |
| `MultiTurnSafety.OneOpenRequest` | benchmark/hicache/bench_multiturn.py:441-516 | no client has two open requests, and the payload of a pending one equals the shared history list |
| `MultiTurnSafety.HistoryNotWrittenWhilePending` | benchmark/hicache/bench_multiturn.py:449-512 | a step writes a client's history only when that client has no pending request |
| `MultiTurnSafety.PoolNeverExhausted` | benchmark/hicache/bench_multiturn.py:292-303 | the question pool is never popped empty, and holds exactly what the clients may still need |
| `MultiTurnHistory.RunTells` | benchmark/hicache/bench_multiturn.py:449-512 | over every run, a client's history is its prompt followed by the server's answers and the questions asked, in turn, as read off the run |
| `MultiTurnHistory.PayloadAtRound` | benchmark/hicache/bench_multiturn.py:484-512 | the request of round k, wherever it is, carries the prompt and exactly the k answers and k questions before it |
| `MultiTurnHistory.PoolIsPrefix` | benchmark/hicache/bench_multiturn.py:486 | questions are used from the back of the sampled list, each once |
| `MultiTurnHistory.SentInOrder` | benchmark/hicache/bench_multiturn.py:402-409 | under the fifo policy requests are taken in the order of clients and then of arrival |
| `MultiTurnHistory.OtherQueuesAreFifo` | benchmark/hicache/bench_multiturn.py:534-535 | responses are handled in the order they were put, and held-back requests released in the order they were made |
| `MultiTurnBarrier.RunIsGated` | benchmark/hicache/bench_multiturn.py:435-538 | with the barrier on, every run keeps the barrier invariant |
| `MultiTurnBarrier.RoundsInOrder` | benchmark/hicache/bench_multiturn.py:518-538 | no request of a round is queued, sent or answered before every client has completed all earlier rounds it takes part in |
| `MultiTurnBarrier.RoundsTally` | benchmark/hicache/bench_multiturn.py:518-538 | completed, being served, outstanding and failed clients of the barrier round add up to its expected count |
| `MultiTurnBarrier.ReleaseHandsOverNextRound` | benchmark/hicache/bench_multiturn.py:526-538 | when a release begins nothing is active and exactly the clients of the next round are handed over |
| `MultiTurnBarrier.FailureFreezesBarrier` | benchmark/hicache/bench_multiturn.py:444-447 | after one failed response the barrier round never ends |
| `MultiTurnProgress.RunsAreBounded` | benchmark/hicache/bench_multiturn.py:402-544 | no run takes more productive steps than the measure of its start |
| `MultiTurnProgress.NoDeadlock` | benchmark/hicache/bench_multiturn.py:402-544 | while requests are uncompleted, a run that is not at rest can make progress |
| `MultiTurnProgress.RestIsCompletion` | benchmark/hicache/bench_multiturn.py:458-486 | without failures, rest means that every round of every client was sent and completed and exactly the needed questions were popped |
| `MultiTurnProgress.EveryRun` | benchmark/hicache/bench_multiturn.py:388-544 | the three results together, for every run from the start |
| `MultiTurnProgress.ProgressBounded` | benchmark/hicache/bench_multiturn.py:388-400 | the progress bar never overruns, and stays short after a hopeless failure |
| `MultiTurnProgress.RestingProgress` | benchmark/hicache/bench_multiturn.py:414-415 | at rest the bar is full exactly when no failure was hopeless and nobody is held back |
| `MultiTurnProgress.LoopsNeverEnd` | benchmark/hicache/bench_multiturn.py:404-415 | after a hopeless failure neither loop ever ends |
| `MultiTurnProgress.ExitIsCompleteIff` | benchmark/hicache/bench_multiturn.py:539-541 | a handler leaving on a full bar has absorbed everything exactly when no response is left |
| `MultiTurnProgress.ExitCanLoseResponse` | benchmark/hicache/bench_multiturn.py:539-541 | a run in which the last response arrives between time-out and exit, and is never absorbed |
| `MultiTurnFailures.FirstRequestCanFail` | benchmark/hicache/bench_multiturn.py:388-447 | in every setup the first request can be sent and fail, with the state this leads to |
| `MultiTurnFailures.BarrierCanFreeze` | benchmark/hicache/bench_multiturn.py:444-447 | in every setup with a barrier there is a run after which the first round never ends, whatever follows |
| `MultiTurnFailures.LoopsCanHang` | benchmark/hicache/bench_multiturn.py:404-415 | in every setup whose first client has two rounds there is a run after which neither loop ends, whatever follows |
| `MultiTurnFailures.TwoByTwoHangs` | benchmark/hicache/bench_multiturn.py:435-541 | both, for two clients of two rounds |
| `MultiTurnFailures.LastResponseLostIff` | benchmark/hicache/bench_multiturn.py:539-541 | a handler leaving on a full bar has lost a response exactly when a request was being answered at its last time-out or was answered after it |
| `TurnQueue.StepKeepsInv` | benchmark/hicache/bench_serving.py:99-190 | every step keeps each conversation in exactly one place, its history and lengths consistent, and the issue counts right |
| `TurnQueue.RunKeepsInv` | benchmark/hicache/bench_serving.py:460-493 | the same over every run |
| `TurnQueue.PutNeverBlocks` | benchmark/hicache/bench_serving.py:186-190 | putting a conversation back never waits for space in the bounded queue |
| `TurnQueue.TurnsIssuedInOrder` | benchmark/hicache/bench_serving.py:263-277 | the turns issued for a conversation are 0, 1, 2, ... without gap or repetition, failures or not |
| `TurnQueue.ContextAtTurn` | benchmark/hicache/bench_serving.py:99-116 | at turn k the history is exactly the 2k messages so far, and the context length counts earlier inputs, actual outputs and the current input |
| `TurnQueueOrder.IssuedInOrder` | benchmark/hicache/bench_serving.py:186-190 | conversations are issued in the order of the data set and then in the order in which they came back |
| `TurnQueueOrder.MessagesOfRun` | benchmark/hicache/bench_serving.py:108-184 | the message list is the prompts and the server's answers in turn, as read off the run |
| `TurnQueueProgress.AllTurnsIssuedOnce` | benchmark/hicache/bench_serving.py:414-421 | when all requests have been issued, every turn of every conversation has been, exactly once |
| `TurnQueueProgress.EverythingIssuedIff` | benchmark/hicache/bench_serving.py:268-275 | with nothing queued or running, everything was issued exactly when no conversation was dropped before its last turn; otherwise only the time-out remains |
| `TurnQueueProgress.NeverStarves` | benchmark/hicache/bench_serving.py:268-277 | without failures, an empty queue before the end means that a running conversation will come back |
| `TurnQueueProgress.RunsAreBounded` | benchmark/hicache/bench_serving.py:263-283 | no run is longer than the measure of its start plus one |
| `TurnQueueProgress.NoDeadlock` | benchmark/hicache/bench_serving.py:396-421 | unless nothing is left to do, a step other than giving up is possible, also under the concurrency limit |
| `TurnQueueProgress.AnswerPossible` | benchmark/hicache/bench_serving.py:172-190 | a posted request always has a turn to be answered |
| `EditDistance.BoundedByNeighbours` | benchmark/ocr/eval_utils.py:625-628 | why no minimum is needed on a match: every table entry is bounded by all three neighbours |
| `EditDistance.NoCheaperScript` | benchmark/ocr/eval_utils.py:617-629 | no insert/delete/substitute script is cheaper than the recurrence |
| `EditDistance.AttainingScript` | benchmark/ocr/eval_utils.py:617-629 | some script attains it |
| `EditDistance.DistanceIsLeastCost` | benchmark/ocr/eval_utils.py:617-629 | the recurrence is the least cost of a script |
| `EditDistance.EditDistance` | benchmark/ocr/eval_utils.py:617-629 | the single-row in-place loop returns the least cost of a script turning one string into the other |
| `EditDistance.Symmetric` | benchmark/ocr/eval_utils.py:605-631 | the distance is symmetric |
| `EditDistance.ZeroOnlyOnEqual` | benchmark/ocr/eval_utils.py:605-631 | it is zero exactly on equal strings |
| `EditDistance.Triangle` | benchmark/ocr/eval_utils.py:605-631 | it satisfies the triangle inequality |
| `EditDistance.AtMostLonger` | benchmark/ocr/eval_utils.py:631 | it is at most the longer length |
| `EditDistance.NormalizedEditDistance` | benchmark/ocr/eval_utils.py:605-631 | the reported ratio is the least cost over the longer length, in [0, 1], and zero exactly on equal normalised strings |
| `EditDistance.RatioLaws` | benchmark/ocr/eval_utils.py:605-631 | bounds, zero, symmetry, and one when exactly one string is empty |
| `EditDistance.CompletelyDifferent` | benchmark/ocr/eval_utils.py:606-609 | strings without a common character have ratio one |
| `EditDistance.CostByKeeps` | benchmark/ocr/eval_utils.py:617-629 | the cost of a script plus what it keeps is the length of either string plus what it deletes or inserts |
| `EditDistance.RatioOneIff` | benchmark/ocr/eval_utils.py:606-609 | the ratio is one exactly when every script keeps at most as many characters as it deletes and as it inserts |
| `EditDistance.RatioOneIsNotCompletelyDifferent` | benchmark/ocr/eval_utils.py:606-609 | "ab" and "ba" have ratio one too |
| `UserFlow.ScannedIndexKeepsOrder` | benchmark/hicache/bench_mix.py:262-266 | inserting where the scan stopped would keep the queue ordered |
| `UserFlow.WhereTheUserLands` | benchmark/hicache/bench_mix.py:259-267 | the index used is the scanned one exactly when some user starts strictly later or the queue is empty; otherwise the user lands before the last one |
| `UserFlow.OrderSurvivesIff` | benchmark/hicache/bench_mix.py:257-267 | the order survives exactly when the new start is not later than the last |
| `UserFlow.HeadSpeaksForQueue` | benchmark/hicache/bench_mix.py:271-275 | on an ordered queue the head is due exactly when anyone is |
| `UserFlow.DueUserCanBePassedOver` | benchmark/hicache/bench_mix.py:262-276 | after one misplaced insertion a due user is passed over |
| `UserFlow.RoundsFor` | benchmark/hicache/bench_mix.py:199-207 | the number of rounds is in range and is that of the first ratio above the drawn number |
| `UserFlow.UserGenerator.Gen` | benchmark/hicache/bench_mix.py:195-227 | a new user with rounds to go; statistics change in exactly two places; all accounting invariants kept |
| `UserFlow.UserGenerator.Pop` | benchmark/hicache/bench_mix.py:269-276 | the due head leaves the queue, otherwise a new user is handed out; nobody is lost or handed out twice |
| `UserFlow.UserGenerator.Push` | benchmark/hicache/bench_mix.py:229-267 | the user gets its new start and the start times change as `WhereTheUserLands` and `OrderSurvivesIff` say; exactly which statistics change; keeps: outputs of round r are inputs of round r+1 plus the users gone whose last round was r, users by rounds are counted right, queued and handed-out users have rounds to go |
| `UserFlow.UserGenerator.StatsAddUp` | benchmark/hicache/bench_mix.py:191-227 | in every state the user statistics add up to the users generated, each of them queued, handed out or gone, and the finished users by round to those gone |
| `MixSlots.RunIsAccounted` | benchmark/hicache/bench_mix.py:417-480 | over every run, sent minus completed counts outstanding requests and every failed response |
| `MixSlots.FailuresUseUpTheWindow` | benchmark/hicache/bench_mix.py:431-440 | failures and outstanding requests share the window, and the sender can go on exactly when they leave room |
| `MixSlots.StuckIff` | benchmark/hicache/bench_mix.py:427-480 | from a reachable state no request is ever sent, answered or handled again exactly when no response waits and the sender left, or nothing is in flight and failures fill the window |
| `MixSlots.FailuresCanFillTheWindow` | benchmark/hicache/bench_mix.py:429-480 | for every limit: sending until the window is full and letting all requests fail while the sender sleeps ends in a stuck state |
| `WheelIndex.NameOfLink` | scripts/update_nightly_whl_index.py:96-118 | the name search recovers the file name of every link that is written |
| `WheelIndex.Dedupe` | scripts/update_nightly_whl_index.py:111-121 | the loop keeps the first link of every name, in order |
| `WheelIndex.UniqueOfMerge` | scripts/update_nightly_whl_index.py:108-121 | merging keeps all new links and the old ones they do not replace |
| `WheelIndex.ReadBack` | scripts/update_nightly_whl_index.py:79-150 | extraction reads back exactly the links that were written |
| `WheelIndex.IndexFile.Update` | scripts/update_nightly_whl_index.py:79-150 | the file is rewritten, or an empty run raises and leaves it as it was |
| `WheelIndex.HistoryIsIndex` | scripts/update_nightly_whl_index.py:79-150 | after every history of runs, reading the file gives exactly the index |
| `WheelIndex.LatestRunWins` | scripts/update_nightly_whl_index.py:108-121 | the index holds exactly one link for every name ever published, that of the latest run that published it, and none for any other |
| `WheelLinks.LatestLinkIs` | scripts/update_nightly_whl_index.py:108-121 | the link kept for a name is the one written by the last run that published it |
| `WheelLinks.NoLinkUnpublished` | scripts/update_nightly_whl_index.py:108-121 | no link is kept for a name that no run published |
| `WheelLinks.IndexPointsTo` | scripts/update_nightly_whl_index.py:55-97 | after any history the file holds one link for a published name, and its target is the wheel of the last run that published it, by release tag, name and digest |
| `WheelIndex.NewestFirst` | scripts/update_nightly_whl_index.py:108-150 | read back from the file after any history, the newest run's links come first |
| `WheelIndex.RerunChangesNothing` | scripts/update_nightly_whl_index.py:79-150 | publishing the same run again leaves the file unchanged to the byte |
| `WheelOrder.StampedIffLasts` | scripts/update_nightly_whl_index.py:108-121 | a link in the index stands for a run exactly when that run wrote it and no later run published its name |
| `WheelOrder.ByCommitsIff` | scripts/update_nightly_whl_index.py:5-6 | after any history, the links in the file are in order of commit count, newest first, exactly when the runs that still have links were made in that order |
| `WheelOrder.NightliesByCommitsIff` | scripts/update_nightly_whl_index.py:28-39 | for names that are new each time: exactly when all runs were made in order of commit count |
| `WheelOrder.OlderCommitListedFirst` | scripts/update_nightly_whl_index.py:5-6 | a history of two runs whose file is not in order of commit count |
| `ChatFilter.FilterTurns` | benchmark/hicache/data_processing.py:56-84 | the kept turns are those that pass the limits, in order, and the totals theirs |
| `ChatFilter.KeptTurnsAre` | benchmark/hicache/data_processing.py:57-84 | the kept turns are exactly those within every given bound, in order, with their prompt and both lengths |
| `ChatFilter.SurvivorsAre` | benchmark/hicache/data_processing.py:53-87 | the survivors are what is kept of exactly the conversations with a turn within the bounds, in order |
| `ChatFilter.Pass` | benchmark/hicache/data_processing.py:53-87 | one pass appends the surviving conversations, cut off at the wanted number |
| `ChatFilter.CommonFilterChat` | benchmark/hicache/data_processing.py:37-91 | exactly the wanted number of entries, entry k being the survivor at k modulo their number, with matching token totals |
| `ChatFilter.PassKeepsCycle` | benchmark/hicache/data_processing.py:52-87 | a pass extends the cycle and makes progress |
| `ChatFilter.EndsIff` | benchmark/hicache/data_processing.py:52-55 | the outer loop ends exactly when nothing is wanted or some conversation keeps a turn |
| `ChatFilter.FitLengthIsCyclic` | benchmark/hicache/data_processing.py:409-413 | the prompt has the drawn length and runs through the tokens in a cycle |
| `MarkerBlock.FirstBeginSuffices` | docs/scripts/update_lmsys_sglang_blogs.py:241-248 | if the first begin marker has no end marker after it, no other one has |
| `MarkerBlock.ReplacedOkIff` | docs/scripts/update_lmsys_sglang_blogs.py:246-253 | the replacement succeeds exactly when some begin marker has an end marker after it |
| `MarkerBlock.OutsideUnchanged` | docs/scripts/update_lmsys_sglang_blogs.py:240-254 | text before the first begin marker and after its end marker is unchanged |
| `MarkerBlock.EndFound` | docs/scripts/update_lmsys_sglang_blogs.py:241-245 | the end marker found is the one written, unless the cards hold one of their own |
| `MarkerBlock.ReplaceTwiceIff` | docs/scripts/update_lmsys_sglang_blogs.py:240-254 | replacing twice equals replacing once with the second cards exactly when the first cards bring no end marker |
| `MarkerBlock.CardsWithEndMarker` | docs/scripts/update_lmsys_sglang_blogs.py:240-254 | on the page that consists of the two markers, cards that are an end marker make the two differ |
| `MarkerBlock.BlogMarkersAreSimple` | docs/scripts/update_lmsys_sglang_blogs.py:16-17 | the actual markers satisfy what these lemmas ask of markers |
| `TokenLatency.Account` | benchmark/hicache/bench_warm_cache.py:118-159 | the chunk loop computes first-token time, latencies and output length as the accounting function says |
| `TokenLatency.LatenciesTelescope` | benchmark/hicache/bench_warm_cache.py:141-159 | for counts that never go back, latencies add up to last counted minus first-token time, one per token after the first chunk, time of chunks without progress carried forward |
| `TokenLatency.LatenciesAddUp` | benchmark/hicache/bench_warm_cache.py:141-159 | for every stream, latencies and the time lost at backward steps add up to last counted minus first-token time, and there is one latency per token gained |
| `TokenLatency.LatencyOfChunk` | benchmark/hicache/bench_warm_cache.py:149-155 | a chunk that brings tokens adds one latency for each, all equal to the time since the last counted chunk divided by their number; others add none |
| `TokenLatency.TelescopesIff` | benchmark/hicache/bench_warm_cache.py:141-159 | for chunks arriving one after the other the latencies never exceed that time, and equal it exactly when the count never goes back |
| `TokenLatency.GoingBackLosesTime` | benchmark/hicache/bench_warm_cache.py:150-155 | a stream of three chunks whose count goes back once: one of two seconds is lost |
| `Partition.SharesCoverExactly` | examples/checkpoint_engine/update.py:60-70 | the rank slices in rank order give the whole list, for every list and world size |
| `Partition.ShareSize` | examples/checkpoint_engine/update.py:69-70 | with the least size for which the ranks suffice, every share is full as long as entries last |
| `Partition.GroupByFile` | examples/checkpoint_engine/update.py:80-85 | grouping keeps each name with its file and adds none |
| `Partition.SplitTensors` | examples/checkpoint_engine/update.py:73-91 | each name of the share is loaded from its own file, and nothing else is |
| `Partition.LeadersTileSockets` | examples/checkpoint_engine/update.py:101-112 | the leaders together send every socket exactly once, in order, whether or not the sizes divide |
| `Partition.FullGroups` | examples/checkpoint_engine/update.py:101-112 | if they divide, every leader hands over a full group |

## Left out

Reached from outside, and therefore parameters, nondeterministic steps or absent:

- HTTP, streaming and process start-up: responses are steps that may come in any order, succeed or fail.
- Clocks and random draws: times and drawn numbers are arguments; the random ready-queue policy is a free choice of index.
- Tokenizers, `normalize_text` and `strip`: function parameters (`size`, `normalize`).
- Floating-point rounding: ratios and latencies are real numbers.
- Reports, metrics, printing, JSON and HTML dumps, data-set loading.

Prefix cache:

- A node is named by its path instead of being an object; renaming does not occur, since a split leaves the lower node's path as it was.
- Timestamps, priorities, hit counts and hence the eviction order: eviction picks any evictable leaf, so the results hold for every strategy.
- RadixCache.Cache.Insert: takes at least as many slots as the aligned key has units; the debug fallback that uses token ids as slots is left out.
- Page hashes, storage events, the disabled mode, the bigram view and the sharing of a key's namespace by all its units (a unit carries its namespace).
- SlotOwnership.KvManager.CacheFinishedReq: takes the whole row of the request; the disabled mode, and a row cut short by the caller, are left out.
- SlotOwnership.KvManager.Extend: the allocator is a bag of slots; that it hands out and takes back whole pages is left out.
- The hierarchical cache.

Trace layout:

- Sorting: that equal start times keep their order is not stated. The results about layout and walks hold for every order.
- SpanObjects.Gather: emits span records only; instant events and links are left out.
- Gateway (smg) spans: laid out as one more request. They have no child list when the source converts them, so that conversion is modelled for engine spans only.
- Thread names, attributes and metadata records other than the slot records.

Benchmarks:

- The ready-queue's error for an unknown policy, heartbeat requests, and per-round metrics.
- TurnQueueProgress.AllTurnsIssuedOnce: for data sets without empty conversations; an empty one is queued once but counts no request.
- MixSlots.RunIsAccounted: the two threads' increments of the completed counter are atomic steps; tasks cancelled at the end of a run stay in flight.
- UserFlow.UserGenerator.Push: counts inputs and outputs per round; the token sums beside them, prompts and return lengths are left out.
- ChatFilter.CommonFilterChat: requires an input on which the loop ends, since the source's loop does not end on the others; `EndsIff` says which they are.
- WheelIndex.HistoryIsIndex: file names, tags and digests contain no `>`, `<` or line break; the root index with its package list is left out.
- Partition.SplitTensors: a tensor's content is represented by the file it was read from.
- `aggregate_results`, `build_prompts`, percentiles, kernels, gateway and everything else in the repository.
