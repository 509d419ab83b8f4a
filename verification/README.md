# MiniInfer in Dafny

A model of the bookkeeping of the MiniInfer serving engine and of the self-contained algorithms it ships, with
proofs of what they keep and compute: who owns which KV page, which placeholder stands for which token, which
program writes which cell, and what a tiled or speculative algorithm computes compared with its plain definition.

`dafny verify dfyconfig.toml` checks everything. One module per file, named after it.

- **Paged KV memory.** `PagedMemory` models the page allocator and its kernels as classes and loops over launch
  orders; `RadixTree` the prefix cache as a mutable tree with parent pointers, lock counts, splits and eviction,
  refining the prefix map of `PrefixMap`; `RequestTable` the request rows; `KVCacheManagement` the manager that
  ties them together. `PageOwnership`, `RequestRows`, `PageLedger` and `DecodeGrowth` prove that pages `1..num_pages`
  stay shared out among the free list, the tree and the requests. `AttentionViews` and `ServedViews` prove that block
  table, CSR form, computed positions and request table name the same slots. `DecodeMemoryCheck` compares the
  scheduler's memory check with the decode step it clears.
- **Overlapped loop.** `FutureMaps` is the circular buffer behind negative placeholders; `OverlapPipeline` the engine
  state machine with both loops; `OverlapRuns` whole runs and the comparison of the two.
- **Tree speculative decoding.** `DraftTrees` builds the tree, mask and links; `SpeculativeSampling` is the
  accept/reject walk; `Losslessness` and `PathLosslessness` count coins (over `Counting`) to show the target
  distribution comes out.
- **Lock-free containers.** `LockFreeQueue` and `LockFreeStack` run atomic steps of any number of threads;
  `Linearizability` defines what their histories must satisfy.
- **Mixture of experts.** `MoeAlignment`, `MoeSmallBatch`, `TileSwizzle`, `GroupedGemm`, `MoeForward`, `ExpertLayer`
  and `ExpertParallel` go from the counting sort to the sum over all ranks.
- **Attention.** `OnlineSoftmax`, `FlashDecode` and `FlashAttention` prove the tiled recurrences exact over the reals.
- **Scheduling.** `PrefillAdmission` is the prefill budget; `DecodeBatches` filtering, joining and retraction.

Shared helpers are in `Wrappers`, `Pages` (block arithmetic), `Orders` (launch orders) and `RealVectors`.

Conventions. A GPU launch is a loop over programs in an order that the caller chooses freely; where a kernel uses
atomic adds, the loop chooses the next add or store arbitrarily. Reals stand for floats and the exponential is any
positive function that turns sums into products. In the sampler probabilities are natural-number weights that add up to `scale`,
and a coin is one of `1..scale`. Ghost fields (`path`, `slots`, `view`, `handles`, `loans`, `stored`, `log`) record what the
proofs talk about and never influence a step. The random, timed and parallel inputs of the program (coins, final
draws, launch orders, admission choices, the model's next token) are parameters.

## Model

| member | source | states |
|---|---|---|
| LockFreeQueue.QueueIsLinearizable | queue.cpp:37-86 | Every history of every schedule of any number of threads, one atomic access or call per step, spurious compare-and-swap failures included, has a legal FIFO order that explains all responses (an empty answer included) and respects real time. |
| LockFreeQueue.TailFollowsHead | queue.cpp:15-86 | In every reachable state the tail node is reached from the head node by next pointers, and at most one node follows the tail. |
| LockFreeStack.StackIsLinearizable | stack.cpp:29-50 | Every history of every schedule of pushes and pops is linearizable as a LIFO stack. |
| Linearizability.GoodIsLinearizable | queue.cpp:37-86 | A sequence of effects stamped inside the interval of their calls, legal for the container and matching all responses, linearizes the history. |
| DraftTrees.MapBanks | spec_sample.py:114-119 | The bank-to-local map is built exactly when no selected bank index repeats; otherwise the duplicate error. |
| DraftTrees.LinkParents | spec_sample.py:121-139 | Succeeds exactly when every selected node finds its parent slot in range and its parent selected, records these parents, the children lists and the depths of the single pass; an error is that of some failing node. |
| DraftTrees.SortIsOrdered | spec_sample.py:144 | Sorting a children list by bank index orders it by bank index. |
| DraftTrees.TreeOfOk | spec_sample.py:121-148 | When parents precede children the parent relation is a tree: every non-root node is listed once, under its parent. |
| DraftTrees.LinkSiblings | spec_sample.py:141-148 | First child and next sibling, followed from any node, list exactly its children in bank order and then stop. |
| DraftTrees.BuildMask | spec_sample.py:46-55 | Entry (v, a) of the mask is set if and only if a is v or an ancestor of v. |
| DraftTrees.DepthIsPopcount | spec_sample.py:46-55 | The number of marks in a mask row is the node's distance from the root plus one. |
| DraftTrees.DepthExact | spec_sample.py:137-138 | The single pass over the nodes computes every depth right if and only if parents precede their children. |
| DraftTrees.PackRoundTrip | spec_sample.py:34-43 | Unpacking a bit-packed row of any width gives the row back, the bytes are below 256, and there are just enough of them. |
| DraftTrees.PackedBit | spec_sample.py:34-43 | Bit j % 8 of byte j // 8 is entry j of the row, and every bit past the row is zero. |
| DraftTrees.PackMask | spec_sample.py:34-43 | Each packed row is the packing of the mask's row. |
| DraftTrees.BuildDraftTree | spec_sample.py:58-185 | Succeeds exactly for matching shapes, positive topk and step count, distinct and prefix-closed selections, in whatever order; then tokens, parents, links and packed mask describe one tree, depths and positions are those of the single pass, and parents precede children exactly if the selection lists them first. |
| DraftTrees.LateParentIsMisread | spec_sample.py:137-150 | The builder accepts the selection [2, 1] under the parent list [0, 0, 1] and gives node 1 depth 1, although it lies two steps below the root. |
| DraftTrees.FirstIsRanked | spec_sample.py:74-78 | A selection that lists parents first never comes back to a node on the way to the root. |
| DraftTrees.BuiltTreeIsWalked | spec_sample.py:141-153 | A built tree with parents first meets what the sampling walk requires of its tree, links and retrieve positions. |
| SpeculativeSampling.TryChildren | spec_sample.py:273-295 | The sibling loop accepts the child that the threshold rule selects, or none, and records in the residual row exactly the children before it, or all; other rows stay. |
| SpeculativeSampling.SampleTree | spec_sample.py:267-307 | `accept_index` holds the retrieve positions of the root-to-node path that the coins select, `predicts` there holds the following path tokens and at the end the bonus token drawn from the residual; everything else in both buffers is untouched. In the residual buffer each path row has the target's entry at the tokens of the children rejected there and is otherwise as before, and all other rows stay. |
| Losslessness.ChooseWindow | spec_sample.py:276-284 | At both thresholds one, child k is accepted exactly by the coins in its own stretch of the cumulative weights, and none exactly by the coins beyond the last child. |
| Losslessness.ResidualMass | spec_sample.py:294-300 | The weight of the rejected children and the mass of the residual add up to the mass of the target row. |
| Losslessness.DrawWindow | spec_sample.py:198-206 | The residual draw returns token t exactly for the draws in t's stretch of the scaled cumulative weights. |
| Losslessness.Lossless | spec_sample.py:267-305 | Among all coin vectors and final draws whose walk reaches a node, the share that emits token t right after it is exactly t's target weight there, for child tokens and others alike. |
| Losslessness.ReachStep | spec_sample.py:279-292 | The share of samples that go on from a node to a child is the target weight of the child's token. |
| Losslessness.WalkEmits | spec_sample.py:285-304 | With a zero residual buffer, the token after every node of the walk is the emitted one of `Lossless`, the bonus included. |
| PathLosslessness.VisitIsPrefix | spec_sample.py:267-305 | The walk visits the node a token string leads to exactly when its output starts with that string and goes on. |
| PathLosslessness.ReachWeight | spec_sample.py:267-305 | The share of samples that reach a node is the product of the target weights along its tokens. |
| PathLosslessness.OutputLossless | spec_sample.py:267-305 | For every token string that stays in the tree up to its last token, the share of samples whose output starts with it is the product of its tokens' target weights. |
| PathLosslessness.OffTreeIsLast | spec_sample.py:297-305 | No output goes on past a token that is no child's. |
| PathLosslessness.PredictsAreOutput | spec_sample.py:285-304 | `predicts` gathered at `accept_index`, as `SampleTree` leaves them, is that output, token by token. |
| PagedMemory.PagesOpenedIsCeilDifference | miniinfer/kvcache/memory_pool.py:133-141 | The difference of the two page ceilings is the number of pages opened when slots are taken one token at a time. |
| PagedMemory.SlotClosedForm | miniinfer/kvcache/memory_pool.py:143-178 | Slot by slot, sequential allocation first continues the partial page, then fills fresh pages of the free list in order. |
| PagedMemory.SegmentOfBatch | miniinfer/kvcache/memory_pool.py:121-141 | Request i of a sequentially allocated batch has the output segment that starts at its prefix sum, filled from the free pages after those of the requests before it. |
| PagedMemory.LaunchExtend | miniinfer/kvcache/memory_pool.py:109-178 | In every program order the parallel kernel writes exactly the sequential allocation of the whole batch. |
| PagedMemory.LaunchDecode | miniinfer/kvcache/memory_pool.py:182-214 | In every program order the decode kernel writes the one-token case of the same sequential allocation, for any page size. |
| PagedMemory.DecodePageCountExact | miniinfer/kvcache/memory_pool.py:230-235 | The host's decode page count is what the kernel consumes if and only if pages hold more than one token or nothing is decoded; with one-token pages it is zero while the kernel takes a page for each request. |
| PagedMemory.GetNumNewPages | miniinfer/kvcache/memory_pool.py:237-242 | The host's extend page count is the number of pages the batch opens. |
| PagedMemory.DecodeSlot | miniinfer/kvcache/memory_pool.py:182-214 | In a decode batch a row goes on inside its last page, or, when its length is a page multiple, at the start of the free page after those of the rows before it. |
| PagedMemory.FreeGroupIsSequentialFree | miniinfer/kvcache/memory_pool.py:360-420 | Freeing two index lists together leaves the same free list, in the same order, as freeing them one after the other. |
| PagedMemory.PagedTokenAllocator.constructor | miniinfer/kvcache/memory_pool.py:246-255 | The free list starts as the pages 1 to size // page_size in order, outside any free group. |
| PagedMemory.PagedTokenAllocator.AllocExtend | miniinfer/kvcache/memory_pool.py:274-320 | Succeeds exactly when the pages the batch opens are free; then returns the sequential allocation from the old free list and removes exactly these pages from its front, else changes no page. |
| PagedMemory.PagedTokenAllocator.AllocDecode | miniinfer/kvcache/memory_pool.py:322-358 | The same for one token per request whose length counts the new token, for pages of more than one token. |
| PagedMemory.PagedTokenAllocator.Free | miniinfer/kvcache/memory_pool.py:360-383 | The page ids of the indices join the free list once each, sorted, invalid ids dropped, at once or, inside a free group, pending: the settled free list is the same. |
| PagedMemory.PagedTokenAllocator.BeginFreeGroup | miniinfer/kvcache/memory_pool.py:385-387 | Frees are pending from now on; free list and pending list are as before. |
| PagedMemory.PagedTokenAllocator.EndFreeGroup | miniinfer/kvcache/memory_pool.py:389-420 | Flushing leaves exactly the free list that immediate frees would have left. |
| PrefixMap.MatchStopsAtFirstGap | miniinfer/kvcache/radix_cache.py:97-118 | In a prefix-closed map the first missing page ends the longest match. |
| PrefixMap.AddPagesInserts | miniinfer/kvcache/radix_cache.py:120-135 | The map after an insertion has exactly the missing page-aligned prefixes in addition, with their slots, and everything stored before unchanged. |
| RadixTree.KeyMatchPaged | miniinfer/kvcache/radix_cache.py:25-33 | The length returned is the longest common prefix of the two keys in whole pages. |
| RadixTree.RadixCache.SplitNode | miniinfer/kvcache/radix_cache.py:216-229 | A split puts a node with the first part of the edge, its values and the same lock count above the child; the map, the sizes, the handles and the tree invariant are as before. |
| RadixTree.RadixCache.MatchPrefix | miniinfer/kvcache/radix_cache.py:85-118 | Returns the slots of the longest stored page-aligned prefix and a node that ends exactly there; the map is unchanged although a node may have been split. |
| RadixTree.RadixCache.Insert | miniinfer/kvcache/radix_cache.py:120-265 | Returns the length stored before, adds exactly the missing aligned prefixes with the given values, keeps old values, and raises the evictable size by the part that was missing. |
| RadixTree.RadixCache.IncLockRef | miniinfer/kvcache/radix_cache.py:160-169 | One more handle at the node; every lock count again equals the handles at or below it, and both sizes equal the unlocked and locked key totals. |
| RadixTree.RadixCache.DecLockRef | miniinfer/kvcache/radix_cache.py:171-182 | Gives back one handle under the same invariant; the walk meets only positive counts. |
| RadixTree.RadixCache.CollectLeaves | miniinfer/kvcache/radix_cache.py:267-279 | The walk returns exactly the unlocked leaves. |
| RadixTree.RadixCache.DeleteLeaf | miniinfer/kvcache/radix_cache.py:296-301 | Removes exactly the map entries on the leaf's edge and its length from the evictable size. |
| RadixTree.RadixCache.EvictLeaf | miniinfer/kvcache/radix_cache.py:144-152 | Freeing an unlocked leaf makes exactly its slots available; the pages free or stored are the same set as before. |
| RadixTree.RadixCache.NoUnlockedLeft | miniinfer/kvcache/radix_cache.py:137-157 | A tree without an unlocked leaf has no unlocked node at all. |
| RadixTree.RadixCache.Evict | miniinfer/kvcache/radix_cache.py:137-158 | Terminates; frees at least what was asked whenever that much is unlocked, and if it falls short no unlocked node is left; without the node freed last it would have freed less than asked, and when nothing is asked for tree, map and free list are as before; prefixes with a handle stay, kept entries keep their slots, no page is lost. |
| RadixTree.RadixCache.HandlesStored | miniinfer/kvcache/radix_cache.py:160-182 | In every valid state each outstanding handle's prefix is stored. |
| RadixTree.RadixCache.HandleHasNode | miniinfer/kvcache/radix_cache.py:160-182 | In every valid state each outstanding handle has a node that ends exactly there. |
| PageLedger.EmptyPartition | miniinfer/kvcache/memory_pool.py:422-426 | The initial free list, an empty tree and no requests share out all pages. |
| PageLedger.AdmitKeepsPartition | miniinfer/kvcache/kv_cache_manager.py:188-206 | Borrowing a stored prefix keeps every page with exactly one owner. |
| PageLedger.EvictKeepsPartition | miniinfer/kvcache/kv_cache_manager.py:262-273 | Eviction moves pages from the tree to the free list and leaves borrowed prefixes stored. |
| PageLedger.LockedPrefixIsMatched | miniinfer/kvcache/kv_cache_manager.py:695-705 | A locked prefix of the key makes the stored length that `insert` returns at least `cache_protected_len`. |
| PageLedger.ReleaseKeepsPartition | miniinfer/kvcache/kv_cache_manager.py:689-709 | Releasing with an insertion gives the missing part to the tree and all other pages of the request to the free list, for every matched length: none is lost, none freed while in use. |
| PageLedger.DropKeepsPartition | miniinfer/kvcache/kv_cache_manager.py:710-712 | Releasing without an insertion frees exactly what the request owns. |
| PageLedger.ExtendBatchKeepsPartition | miniinfer/kvcache/kv_cache_manager.py:292-299 | Extending a batch moves the front of the free list to the requests; after any number of its requests every page has one owner. |
| PageLedger.ExtendBatchKeepsLayout | miniinfer/kvcache/kv_cache_manager.py:292-325 | After the extension every row still has each token at its offset inside a page. |
| DecodeGrowth.GrownRowPages | miniinfer/kvcache/memory_pool.py:209-214 | A row that grows by its next slot owns one more page exactly when its length is a page multiple. |
| DecodeGrowth.GrowKeepsPartition | miniinfer/kvcache/memory_pool.py:196-214 | A running request that grows by one slot, on its old page or a fresh one, keeps the partition and the layout. |
| DecodeGrowth.DecodeKeepsPartition | miniinfer/kvcache/memory_pool.py:322-358 | The same for a whole decode batch and every prefix of it. |
| DecodeGrowth.UncountedDecode | miniinfer/kvcache/kv_cache_manager.py:636-656 | Given the length before its increment, the allocator returns the right slot and takes the right pages if and only if pages hold one token or the length leaves a remainder above one; after a full page it returns the start of the next page in memory without taking it, one token into a page it opens another. |
| DecodeGrowth.UncountedSlotIsFree | miniinfer/kvcache/kv_cache_manager.py:636-656 | With pages of four tokens and one full page, the slot returned is on a page that stays in the free list. |
| RequestTable.RequestPool.Alloc | miniinfer/kvcache/memory_pool.py:484-489 | The first free rows, in order, or nothing and no change when there are too few. |
| RequestTable.RequestPool.WriteProgram | miniinfer/kvcache/kv_cache_manager.py:835-879 | One program writes its own row only: the cached prefix, then its segment of the flat output, found by summing lengths, at the positions after the prefix. |
| RequestTable.RequestPool.WriteCacheIndices | miniinfer/kvcache/kv_cache_manager.py:882-906 | In every program order all rows of the batch end up written, all other rows unchanged. |
| KVCacheManagement.KVCacheManager.constructor | miniinfer/kvcache/kv_cache_manager.py:38-147 | A new manager of the given sizes is valid: all pages and all request rows free, nothing cached, borrowed or running. |
| KVCacheManagement.KVCacheManager.PrefixForWaitingReq | miniinfer/kvcache/kv_cache_manager.py:188-206 | The request borrows the longest stored aligned prefix of all its tokens but the last, with one more lock handle there; the manager stays valid and no other loan changes. |
| KVCacheManagement.KVCacheManager.EvictFor | miniinfer/kvcache/kv_cache_manager.py:262-273 | A round of eviction keeps partition, layout, handles and every request's borrowed prefix; as much is freed as `Evict` says, and the evictable size drops by just that. |
| KVCacheManagement.KVCacheManager.EvictIfShort | miniinfer/kvcache/kv_cache_manager.py:260-273 | With a free slot for every token nothing changes; else leaves are freed until there is one, without the last leaf there would not be, or nothing unlocked is left. |
| KVCacheManagement.KVCacheManager.RoomForPages | miniinfer/kvcache/kv_cache_manager.py:260-273 | The room made for tokens holds a number of pages that free and evictable slots cover, provided it is at most what was free or what the tokens fill. |
| KVCacheManagement.KVCacheManager.PrepareForExtend | miniinfer/kvcache/kv_cache_manager.py:211-328 | Success runs every request with its row of the table holding prefix and new slots, in a valid state. It fails exactly when the rows run out or, once room was made as in `EvictIfShort`, the batch opens more pages than are free; then loans and running set stay, and it is stated which request rows are taken. The free list loses exactly the pages opened. |
| KVCacheManagement.KVCacheManager.GrowDecode | miniinfer/kvcache/kv_cache_manager.py:624-661 | Under the contract of `alloc_decode`: once room was made as in `EvictIfShort`, the step is refused if and only if growing each row by one token opens more pages than are free, and then nothing but the eviction happens; else every row grows by its next slot, in table and ledger, in a valid state, and the free list loses exactly the pages opened. |
| KVCacheManagement.KVCacheManager.ReleaseRequest | miniinfer/kvcache/kv_cache_manager.py:664-750 | Fails without effect exactly for a request without a row; else free pages and cached map become exactly what the insertion or the plain release prescribes, the row goes back to the free rows, exactly one handle at the borrowed prefix is given back, and the manager stays valid, in or out of a free group. |
| DecodeMemoryCheck.DecodeAfterCheck | miniinfer/scheduler/scheduler.py:531-551 | A decode step that the memory check let through: with a free slot for every request it is granted if and only if the pages it opens are free, however much is evictable; and it is granted in any case if it opens no more pages than its tokens fill. |
| DecodeMemoryCheck.CheckedButRefused | miniinfer/scheduler/scheduler.py:531-551 | Three full rows of four tokens with one free page and two evictable ones: the check passes, and the step needs three pages, finds a slot for every token, evicts nothing and has one page. |
| AttentionViews.BlockTableAgrees | miniinfer/layers/attention_backend/flashattention_backend.py:274-291 | Row entry p is `block_table[p // ps] * ps + p % ps` for every token of a laid-out row, whatever follows in the table row. |
| AttentionViews.CsrAgrees | miniinfer/layers/attention_backend/flashinfer_backend.py:93-113 | Decoding the CSR form gives back every slot of every request of the batch, inside that request's range. |
| AttentionViews.CsrLength | miniinfer/layers/attention_backend/flashinfer_backend.py:100-106 | Page count and last page length give back the request's length. |
| AttentionViews.TokenHasRequest | miniinfer/scheduler/scheduler_batch.py:463-467 | Every flattened token lies in the segment of some request of the batch. |
| AttentionViews.PositionsAgree | miniinfer/scheduler/scheduler_batch.py:450-470 | A flattened token's slot is its request's row entry at its computed position, which lies in the extended part. |
| ServedViews.ViewsAgree | miniinfer/kvcache/kv_cache_manager.py:783-786 | In every valid state of the manager the request table, the block table and the CSR form show, for every running request and position, the slot the request holds there. |
| ServedViews.ExtendViewsAgree | miniinfer/kvcache/kv_cache_manager.py:312-328 | After `prepare_for_extend` each flattened token's slot is also its request's table entry at the computed position. |
| FutureMaps.FutureMap.constructor | miniinfer/engine/future_map.py:45-74 | The limit is (3 + chunks) batches and nothing is handed out. |
| FutureMaps.FutureMap.AllocFutureIndices | miniinfer/engine/future_map.py:81-103 | The batch gets the next slots, at their wrapped 1-based indices; earlier slots stay given. |
| FutureMaps.FutureMap.IndexInBuffer | miniinfer/engine/future_map.py:61-68 | Every index handed out lies inside the buffer, so the clamp never acts. |
| FutureMaps.FutureMap.LiveApart | miniinfer/engine/future_map.py:91-103 | Two slots of live batches with the same index are the same slot. |
| FutureMaps.FutureMap.StoreToMap | miniinfer/engine/future_map.py:120-135 | The batch's tokens reach its slots and every other stored live slot keeps its token. |
| FutureMaps.FutureMap.ResolveFutureInputIds | miniinfer/engine/future_map.py:137-186 | In place: all entries on the fast path, else exactly the negative ones, become the buffer's tokens; other entries stay. |
| FutureMaps.FutureMap.PlaceholderResolves | miniinfer/engine/future_map.py:137-186 | While at most `future_limit` slots were handed out from its batch on, no later batch got its index, so a stored token's placeholder resolves to it. |
| FutureMaps.FutureMap.LapReusesIndex | miniinfer/engine/future_map.py:91-103 | Index arithmetic only: the slot handed out one lap later has the same index. |
| FutureMaps.OutlastsExactly | miniinfer/engine/future_map.py:120-135 | After any sequence of stores, the token of one of them stays at its index whatever tokens the later ones write, if and only if none of these covers the index. |
| FutureMaps.FutureMap.ResolvesExactly | miniinfer/engine/future_map.py:120-186 | For every stored token: its placeholder resolves to it, whatever the batches stored since its own wrote, if and only if none of them was given its index; in any case it resolves to the token stored last there. |
| FutureMaps.LapOverwrites | miniinfer/engine/future_map.py:61-186 | With room for one request, after four batches the placeholder of the first one's token 10 resolves to the fourth one's token 20. |
| FutureMaps.LapSpares | miniinfer/engine/future_map.py:61-186 | With room for two, a token still resolves after more than the limit was handed out, as no later batch got its index. |
| OverlapPipeline.Engine.constructor | miniinfer/engine/llm_engine.py:202-324 | A new engine is valid, with nothing running and an empty future map of the configured size. |
| OverlapPipeline.Engine.FilterRunning | miniinfer/scheduler/scheduler.py:676-710 | Exactly the finished requests leave, the others keep their order, and every remaining placeholder still belongs to its request. |
| OverlapPipeline.Engine.RunForwardDecode | miniinfer/engine/overlap_executor.py:258-345 | Every unfinished request's forward pass consumes the token sampled for it last, placeholder or not; the batch gets the next slots as its placeholders. |
| OverlapPipeline.Engine.RunSample | miniinfer/engine/overlap_executor.py:347-413 | The sampled tokens reach their slots and the pinned buffer, which no pending record still needs, and the batch becomes the one pending record. |
| OverlapPipeline.Engine.ProcessPending | miniinfer/engine/overlap_executor.py:415-468 | The pending batch's unfinished requests get exactly one more output token each, the right one; requests finished meanwhile are skipped. |
| OverlapPipeline.Engine.ProcessStepResult | miniinfer/engine/llm_engine.py:1137-1269 | Appends one token to each unfinished request of the batch and finishes it exactly at end-of-sequence or at its limit. |
| OverlapPipeline.Engine.PropagateFuture | miniinfer/engine/llm_engine.py:1059-1135 | Old running requests keep their placeholders, new ones get the batch's, in running order; without old placeholders there are none. |
| OverlapPipeline.Engine.StepOverlap | miniinfer/engine/llm_engine.py:559-896 | On either path the record that was pending is processed and the launched batch is the only pending one after. The admitted requests leave the waiting queue and join the end of the running batch, all others keep their places in order; the running batch loses exactly the requests finished before the step (on the conservative path, those finished after processing too), and every unfinished request waits or runs. Slots and placeholders are accounted for, and every output is a prefix of what the model generates, finished exactly at its stop. |
| OverlapPipeline.Engine.StepSync | miniinfer/engine/llm_engine.py:465-522 | The synchronous step gives each unfinished request of its batch one token; admitted requests move from the queue to the end of the running batch, which loses exactly the requests finished before, all others keep their order, and every unfinished request waits or runs; outputs as in the overlapped step. |
| OverlapPipeline.OutputsAgree | miniinfer/engine/llm_engine.py:1229-1249 | Right outputs of the same request are equal once both finished; an unfinished one is a prefix. |
| OverlapPipeline.LoopsAgree | miniinfer/engine/llm_engine.py:559-896 | A request finished in an engine driven by overlapped steps and in one driven by synchronous steps has the same `output_ids`. |
| OverlapRuns.RunOverlapped | miniinfer/engine/llm_engine.py:559-896 | Any run of arrivals and overlapped steps is a chain of such steps, event by event, that loses no request: after each event every unfinished request waits or runs. It keeps all outputs right and at most one record pending, under the one hypothesis that no stretch of prefill steps admits more than the placeholders' room; each step's condition follows from it. |
| OverlapRuns.RunSynchronous | miniinfer/engine/llm_engine.py:465-522 | Any run of arrivals and synchronous steps is such a chain too, loses no request and keeps all outputs right. |
| OverlapRuns.CompareLoops | miniinfer/engine/llm_engine.py:559-896 | From fresh engines, after both runs over any two event sequences, a request finished in the synchronous run has in the overlapped run a prefix of the same output, and the same output once finished there. |
| MoeAlignment.CountTokens | miniinfer/layers/fused_moe/fused_moe_kernel.py:192-202 | In every order of the atomic adds the counters end as the number of pairs of each expert. |
| MoeAlignment.Meta | miniinfer/layers/fused_moe/fused_moe_kernel.py:206-227 | Bases and cursors are the exclusive sums of the padded counts, and the total is their sum. |
| MoeAlignment.Fill | miniinfer/layers/fused_moe/fused_moe_kernel.py:231-270 | In every program order all blocks name their expert, all padding cells hold the sentinel, and block entries past the end stay. |
| MoeAlignment.ScatterTokens | miniinfer/layers/fused_moe/fused_moe_kernel.py:274-287 | In every interleaving of the adds and stores each bucket receives exactly its pairs and padding stays. |
| MoeAlignment.AlignTriton | miniinfer/layers/fused_moe/fused_moe_kernel.py:345-376 | The four launches produce an alignment in buffers of the host's size, with zero block entries past the real blocks. |
| MoeAlignment.AlignReference | miniinfer/layers/fused_moe/fused_moe_kernel.py:35-95 | The reference produces an alignment of exactly the padded size with every bucket in pair order. |
| MoeAlignment.SortedPairsIsStable | miniinfer/layers/fused_moe/fused_moe_kernel.py:53-56 | The sequence the reference scatters from is the stable sort of all pairs by expert. |
| MoeAlignment.BlocksArePure | miniinfer/layers/fused_moe/fused_moe_kernel.py:35-95 | Every real entry of a block is a pair of the block's expert; all others are sentinels. |
| MoeAlignment.PairHasPlace | miniinfer/layers/fused_moe/fused_moe_kernel.py:290-376 | Every (token, k) pair has a place among the real blocks of any alignment. |
| MoeAlignment.PairHasOnePlace | miniinfer/layers/fused_moe/fused_moe_kernel.py:290-376 | No pair has two places. |
| MoeAlignment.TotalFitsBuffer | miniinfer/layers/fused_moe/fused_moe_kernel.py:311-314 | The padded total lies between the number of pairs and `numel + E * (B - 1)`, and its blocks fit the block buffer. |
| MoeAlignment.AlignmentsAgree | miniinfer/layers/fused_moe/fused_moe_kernel.py:296-305 | Two alignments of a routing have the same total, block experts and multiset of ids in every bucket: they differ only in the order inside a bucket. |
| MoeSmallBatch.AlignSmallBatch | miniinfer/layers/fused_moe/fused_moe_kernel.py:121-188 | Tokens land in reference order for every routing; the result is an alignment if and only if every expert but the first has at most one block per lane. |
| MoeSmallBatch.DefaultBlockHasLanes | miniinfer/layers/fused_moe/fused_moe_kernel.py:331-343 | At the block size of 32 the launcher's guard leaves enough lanes for every routing. |
| MoeSmallBatch.LanesCanRunOut | miniinfer/layers/fused_moe/fused_moe_kernel.py:156-188 | Three pairs for expert 1 at block size 1 are more blocks than lanes. |
| TileSwizzle.PidRoundTrip | miniinfer/layers/fused_moe/fused_moe_kernel.py:401-409 | The program id is recovered from its tile: different programs compute different tiles. |
| TileSwizzle.TileRoundTrip | miniinfer/layers/fused_moe/fused_moe_kernel.py:401-409 | Every tile of the grid has a program, for any group size and a short last group. |
| GroupedGemm.DotTiles | miniinfer/layers/fused_moe/fused_moe_kernel.py:436-446 | Accumulating over column tiles, masked at the end, gives the dot product. |
| GroupedGemm.RunTile | miniinfer/layers/fused_moe/fused_moe_kernel.py:411-456 | One program stores the right value in every cell of its block's real tokens and its columns, changes no other output cell and no cell to anything but its output value, and leaves its input intact. |
| GroupedGemm.Launch | miniinfer/layers/fused_moe/fused_moe_kernel.py:459-497 | In every program order the output region holds all output rows, zeros for pairs of other ranks' experts, and nothing outside it changed, input in the same workspace included. |
| GroupedGemm.CellHasOneTile | miniinfer/layers/fused_moe/fused_moe_kernel.py:401-456 | No two programs' tiles hold the same entry and column. |
| GroupedGemm.CellStoredOnce | miniinfer/layers/fused_moe/fused_moe_kernel.py:401-456 | For every pair and column exactly one program of the launch stores the cell. |
| MoeForward.SiluMul | miniinfer/layers/fused_moe/fused_moe_kernel.py:570-576 | The gated product is written over the start of its own input and still equals the gate of the rows that were there. |
| MoeForward.BuffersArePairOuts | miniinfer/layers/fused_moe/fused_moe_kernel.py:560-587 | Two GEMMs with the gate between them give each pair its weighted expert row, or zero for a remote expert. |
| MoeForward.Reduce | miniinfer/layers/fused_moe/fused_moe_kernel.py:589-590 | Each output cell is the sum of its token's K pair rows. |
| MoeForward.Align | miniinfer/layers/fused_moe/fused_moe_kernel.py:549-558 | Whichever kernel the guard chooses, the result is an alignment whose block entries may all index the expert map. |
| ExpertLayer.Regions | miniinfer/layers/fused_moe/experts.py:68-99 | The workspace holds the first buffer alone and the other two side by side. |
| ExpertLayer.FusedExpertsTriton | miniinfer/layers/fused_moe/fused_moe_kernel.py:506-590 | With the three buffers aliased in one workspace the launches still compute the layer's output for every routing. |
| ExpertLayer.FusedExperts.constructor | miniinfer/layers/fused_moe/experts.py:23-84 | A rank owns the experts from `ep_rank * num_local` on, with an equal slice of the intermediate size. |
| ExpertLayer.FusedExperts.LoadExpertWeight | miniinfer/layers/fused_moe/layer.py:107-151 | For an owned expert only its slice of the named projection changes, to the rank's rows or columns; remote experts are skipped, an unknown projection is an error. |
| ExpertLayer.FusedExperts.Forward | miniinfer/layers/fused_moe/experts.py:101-132 | The fused path returns the rank's output, weights unchanged, whatever the workspace held. |
| ExpertLayer.FusedExperts.EagerForward | miniinfer/layers/fused_moe/experts.py:134-156 | The loop over owned experts with accumulation returns the rank's output. |
| ExpertLayer.FusedExperts.FusedEqualsEager | miniinfer/layers/fused_moe/experts.py:101-156 | Two outputs of the rank, fused and eager, are equal cell by cell. |
| ExpertParallel.LoadsMakeShard | miniinfer/layers/fused_moe/layer.py:141-149 | Loading the three projections, gate and up in either order, makes the rank's shard of the full expert. |
| ExpertParallel.LoadModel | miniinfer/layers/fused_moe/layer.py:107-151 | Loading every projection of every expert, in any order and with repetitions, ends with exactly the rank's weights. |
| ExpertParallel.SliceDotsIsDot | miniinfer/layers/fused_moe/layer.py:121-149 | Dot products over the intermediate slices add up to the whole dot product. |
| ExpertParallel.RankOutputIsPartial | miniinfer/layers/fused_moe/experts.py:101-156 | A rank's layer output is its partial output of the full model, and conversely. |
| ExpertParallel.EpReduces | miniinfer/layers/fused_moe/dispatcher.py:72-73 | The sum over the expert group is what one slice computes with all experts local. |
| ExpertParallel.RanksAddUp | miniinfer/layers/fused_moe/dispatcher.py:60-76 | The sum over all expert and tensor ranks is the output of a single rank that holds every weight. |
| OnlineSoftmax.FoldCarries | flash_decode_splitk.py:82-87 | Folding a tile's maximum, mass and moments into those of a prefix gives those of the longer prefix, from an empty prefix too. |
| OnlineSoftmax.MaskedCarries | flash_attention.py:116-129 | Appending scores that are all masked changes nothing. |
| OnlineSoftmax.SafeIsAttention | flash_attention.py:25-40 | Subtracting the row maximum before the exponential does not change softmax attention. |
| OnlineSoftmax.CarriedIsAttention | flash_decode_splitk.py:129-148 | Dividing the carried moment by the carried mass is attention over the whole sequence. |
| FlashDecode.Stage1 | flash_decode_splitk.py:49-95 | Each program leaves the exact softmax state of its split, for any block size, empty splits included. |
| FlashDecode.SplitsCover | flash_decode_splitk.py:49-51 | Any positive number of splits of the ceiling size covers the sequence exactly. |
| FlashDecode.LanesAddUp | flash_decode_splitk.py:126-132 | The maximum and the rescaled masses of the split states are those of the sequence. |
| FlashDecode.Reduce | flash_decode_splitk.py:118-148 | The masked reduction over a power of two of lanes is attention over the whole sequence. |
| FlashDecode.FlashDecodeSplitK | flash_decode_splitk.py:174-270 | For every program order, split count and block size the two launches compute attention; an empty cache or no split is the error. |
| FlashDecode.DecodeIsReference | flash_decode_splitk.py:151-171 | Attention to base two of the pre-scaled query equals the reference's attention to base e. |
| FlashAttention.SkippedIsMasked | flash_attention.py:116-129 | For any row and key range under the causal mask, the scores are all masked exactly when the range starts past the row. |
| FlashAttention.ProcessedRowsLive | flash_attention.py:116-129 | All rows of a processed tile see a key if and only if the tile starts at or before the tile's first row. |
| FlashAttention.ProcessedStartsBefore | flash_attention.py:70-71 | With key tiles a multiple of the query tiles, as with 64 and 32, a processed tile always does. |
| FlashAttention.RunRowsLive | flash_attention.py:101-129 | For lengths that are multiples of both tile sizes, every tile a causal run processes has only rows that see a key, if and only if the key tile is a multiple of the query tile. |
| FlashAttention.MisalignedTileIsMasked | flash_attention.py:116-129 | With query tiles of 4 and key tiles of 2 a processed tile has a row that sees no key. |
| FlashAttention.SameScores | flash_attention.py:15-23 | Masking before or after scaling gives the same scores. |
| FlashAttention.FlashAttentionV1 | flash_attention.py:45-148 | With key tiles outside and outputs normalised after every tile, every row is safe softmax attention, whatever finite values the output buffer held. |
| FlashAttention.FlashAttentionV2 | flash_attention.py:151-249 | With query tiles outside and one normalisation, every row is safe softmax attention. |
| FlashAttention.VersionsAgree | flash_attention.py:45-249 | The two versions produce the same rows. |
| PrefillAdmission.AlignDownIsFloor | miniinfer/scheduler/prefill_adder.py:317-336 | Cutting to whole pages is floor division times the page size, below zero too. |
| PrefillAdmission.BudgetChunkIsLargest | miniinfer/scheduler/prefill_adder.py:298-347 | Short of total budget, the chunk is the largest positive number of whole pages that is short of the request, leaves a token of the budget and fits the chunk budget; there is none only if no length qualifies. |
| PrefillAdmission.ChunksAreProper | miniinfer/scheduler/prefill_adder.py:298-368 | Every truncated chunk is a positive number of whole pages, strictly shorter than the request and within the total budget. |
| PrefillAdmission.AdmitKeepsCommitted | miniinfer/scheduler/prefill_adder.py:180-376 | With page-multiple availability every decision keeps the page-rounded extend total within it, although the check compares unrounded lengths. |
| PrefillAdmission.UnalignedOvercommits | miniinfer/scheduler/prefill_adder.py:289-361 | For every availability that is no page multiple there is a request that is admitted whole and overcommits it. |
| PrefillAdmission.OverdrawnByLessThanAPage | miniinfer/scheduler/prefill_adder.py:286-361 | While the reserve charged equals the one checked, the total budget is never overdrawn by a page. |
| PrefillAdmission.MismatchOverdraws | miniinfer/scheduler/prefill_adder.py:286-361 | Whenever the two reserves differ, some admissible budget and request overdraw it by a page or more. |
| PrefillAdmission.PrefillAdder.DoChunkedPrefill | miniinfer/scheduler/prefill_adder.py:208-256 | The request runs truncated, is marked and charged as a chunk exactly when it is shorter, and nothing happens for a length of zero or less. |
| PrefillAdmission.PrefillAdder.AddForBudget | miniinfer/scheduler/prefill_adder.py:298-347 | Short of total budget, the request runs as many whole pages as fit short of all of it, or is refused unchanged. |
| PrefillAdmission.PrefillAdder.TryAddPrefill | miniinfer/scheduler/prefill_adder.py:262-376 | A request runs whole if and only if the batch has room, its length plus decode reserve fits the total budget, its pages stay below the input budget or it is alone, and its pages fit the chunk budget; in part with the largest part that fits; NO_TOKEN, OTHER and CONTINUE are answered each under its own stated condition. Every budget field moves by the pages and tokens admitted, and batch size and available pages are kept over any sequence of calls. |
| DecodeBatches.SelectSame | miniinfer/scheduler/scheduler.py:695-705 | Selecting the same positions of requests and entries leaves every kept request with its own entry. |
| DecodeBatches.RunningBatch.Filter | miniinfer/scheduler/scheduler.py:676-710 | Finished requests leave; all others keep their order, row index, lengths and placeholder. |
| DecodeBatches.RunningBatch.Join | miniinfer/scheduler/scheduler.py:646-674 | The requests whose prefill is complete are appended in order; every row index belongs to its request, and every request, old or new, holds exactly the lengths it held in the batch it comes from. |
| DecodeBatches.RunningBatch.Rebuild | miniinfer/scheduler/scheduler.py:612-643 | Row indices and current lengths are read back from the requests, entry by entry, and the placeholders are cut to the remaining ones. |
| DecodeBatches.DemandFits | miniinfer/scheduler/scheduler.py:537-546 | With known lengths the estimate is the page size times the pages opened when each row grows by one token. |
| DecodeBatches.FitsAnyLengths | miniinfer/scheduler/scheduler.py:544-546 | Without them the estimate is enough for any lengths. |
| DecodeBatches.Scheduler.RetractUntilFits | miniinfer/scheduler/scheduler.py:553-598 | Terminates; a prefix of the batch is kept untouched, the rest goes reset, in order, to the head of the queue and off the pending releases; each of them is released with its row, last one first, while what was then in the batch did not fit; and the kept rows fit or nothing is kept. |
| DecodeBatches.Scheduler.CheckDecodeMem | miniinfer/scheduler/scheduler.py:519-610 | Requests leave if and only if the free tokens do not cover the pages that the batch opens with one more token each, and then from the tail and no more of them than until they do; batch followed by queue is the same sequence of requests as before; metadata and placeholders match the kept ones, and nothing changes if none leaves. |

## Findings

What the code or its comments suggest but the code does not do, with an input and the exact condition.

| source | what one would expect | input for which it fails | it holds exactly when | member |
|---|---|---|---|---|
| miniinfer/kvcache/memory_pool.py:230-235 | The host's decode page count is what the kernel takes. | Page size 1 and any nonempty batch: the host counts 0, the kernel takes one page for each request. | The page size is not 1, or the batch is empty. | PagedMemory.DecodePageCountExact |
| spec_sample.py:137-138 | The single pass computes node depths; the stated assumption is only that the selection is prefix-closed. | topk 1, `top_scores_index` [2, 1], `parent_list` [0, 0, 1]: node 1 gets depth 1 instead of 2. | Every parent precedes its children in local order. | DraftTrees.DepthExact, DraftTrees.LateParentIsMisread |
| miniinfer/layers/fused_moe/fused_moe_kernel.py:156-188 | The one-launch alignment agrees with the reference. | Block size 1, three pairs for expert 1: two lanes, three blocks. | Every expert but the first has at most `max(next_power_of_2(B), 2)` blocks; always so at the default block size of 32. | MoeSmallBatch.AlignSmallBatch, MoeSmallBatch.LanesCanRunOut, MoeSmallBatch.DefaultBlockHasLanes |
| miniinfer/scheduler/prefill_adder.py:289-361 | Admission keeps the page-rounded extends within the available tokens. | Any availability that is no page multiple, and a request of exactly that length. | The availability is a page multiple. | PrefillAdmission.UnalignedOvercommits, PrefillAdmission.AdmitKeepsCommitted |
| miniinfer/scheduler/prefill_adder.py:286-361 | The total budget is overdrawn by less than a page, as the comment at lines 373-375 suggests. | A request with `max_tokens` 100 that already has 50 outputs. | The reserve checked, `min(max(max_tokens - outputs, 0), clip)`, equals the one charged, `min(max_tokens, clip)`. | PrefillAdmission.OverdrawnByLessThanAPage, PrefillAdmission.MismatchOverdraws |
| flash_attention.py:116-129 | A tile that the causal check does not skip has no fully masked row. | Query tiles of 4, key tiles of 2: the tile at key 2, rows 0 and 1. | For a tile: it starts at or before its first row. For a run: the key tile is a multiple of the query tile, as with the constants 64 and 32. | FlashAttention.ProcessedRowsLive, FlashAttention.RunRowsLive, FlashAttention.MisalignedTileIsMasked |
| miniinfer/engine/llm_engine.py:1068-1070 | Old placeholders stay valid beside new ones, as the comment takes for granted. | Room for one request and no chunks, so a limit of 3; four batches of one token, 10 stored in the first and 20 in the fourth: the first placeholder resolves to 20. | No batch stored after the token's own was given its index; so in particular while at most `future_limit` slots are handed out from its batch on. | FutureMaps.FutureMap.ResolvesExactly, FutureMaps.LapOverwrites, FutureMaps.LapSpares |
| miniinfer/kvcache/kv_cache_manager.py:636-656 | A decode step gets the next slot of each row, though `alloc_decode` is given the length before its increment. | Page size 4, a row on the slots 4 to 7, free pages 3 and 2: the slot is 8, on page 2, which stays free; with the length counted it is 12, on page 3, which is taken. | The page size is 1, or the length before the increment leaves a remainder above 1 when divided by it. | DecodeGrowth.UncountedDecode, DecodeGrowth.UncountedSlotIsFree |
| miniinfer/scheduler/scheduler.py:531-551 | The memory check keeps the decode step it lets through from running out of pages: it counts evictable tokens. | Page size 4, three rows of 4 tokens, one free page, two evictable ones: 12 tokens are available for 3 pages, but 4 free slots cover 3 tokens, so nothing is evicted and one page is free. | With a free slot for every request: the pages opened are free. Otherwise: they are free after the eviction, in any case if they are no more than the tokens fill. | DecodeMemoryCheck.DecodeAfterCheck, DecodeMemoryCheck.CheckedButRefused |

Two smaller ones need no row. `_do_chunked_prefill` has a branch for a request that turns out to be whole
(miniinfer/scheduler/prefill_adder.py:247-254); `ChunksAreProper` shows that no caller reaches it. When `prepare_for_extend` runs out of
pages after it took request rows (miniinfer/kvcache/kv_cache_manager.py:248-310), the rows stay taken although the requests do not run:
`PrepareForExtend` states exactly which.

## Left out

- KVCacheManagement.KVCacheManager.GrowDecode: takes the row lengths from its caller, counts the new token and excludes one-token pages; `prepare_for_decode` passes lengths before its own increment (miniinfer/kvcache/kv_cache_manager.py:636-656), for which `DecodeGrowth.UncountedDecode` says when the slot is right.
- PagedMemory.PagedTokenAllocator.AllocDecode: excludes one-token pages, for which `DecodePageCountExact` shows the host count wrong; the kernel itself is covered for every page size.
- KVCacheManagement.KVCacheManager.ReleaseRequest: requires the row to hold exactly the request's tokens, which not every caller guarantees while the last sampled token has no slot yet.
- KVCacheManagement.KVCacheManager.PrefixForWaitingReq: the branch without a prefix cache is not modelled; a request that waits again replaces its own loan while its earlier lock stays, as in the source.
- RadixTree.RadixCache.Evict: the least-recently-used order and access times are not modelled; any unlocked leaf may go next. Eviction inside a free group is not modelled: no caller does it, and nothing would count as freed.
- RadixTree.RadixCache.EvictLeaf: outside a free group, like the loop it belongs to.
- DraftTrees.BuildDraftTree: one request, the mask in its boolean and bit-packed forms; the full-length mask mode, caller-provided mask buffers and the tensor-shape checks of a batch are not modelled; parents must not form a cycle, on which the mask loop would not end.
- SpeculativeSampling.SampleTree: one request of the batch; the walk requires a tree, distinct retrieve positions and buffers of the right size.
- Losslessness.Lossless: both thresholds one, distinct sibling tokens and weights that add up to the scale; other thresholds and repeated sibling tokens are not covered.
- Losslessness.ReachStep: the same conditions as `Losslessness.Lossless`.
- Losslessness.WalkEmits: the residual buffer starts at zero, as it does unless a caller passes one.
- PathLosslessness.ReachWeight: the same conditions as `Losslessness.Lossless`.
- PathLosslessness.OutputLossless: the same conditions, and the draw's resolution is a multiple of the residual mass at the last node.
- OverlapPipeline.Engine.StepOverlap: requires the live placeholders to be within the limit, which `OverlapRuns.RunOverlapped` derives for whole runs; retraction, chunked and mixed batches, failing forward passes and vocabulary masks are not modelled; requests are ids with their prompt and limits, and the next token is a function of the request and the tokens its cache holds.
- OverlapRuns.RunOverlapped: the hypothesis bounds the requests that admission wants between two decode steps.
- OverlapRuns.CompareLoops: the same hypothesis on the overlapped run.
- FlashAttention.FlashAttentionV1: the unwritten output buffer is modelled as holding reals; a NaN or an infinity there, times the zero mass of the first tile, would stay (flash_attention.py:80, 138-145). Sequence lengths are tile multiples, as the source asserts; for causal heads key tiles are a multiple of query tiles, as with the source's constants. The same holds for version two.
- FlashDecode.FlashDecodeSplitK: one batch entry and head; the shape, device and head-size checks are not modelled.
- FlashDecode.DecodeIsReference: the factor 1.44269504 stands for the exact base-two logarithm of e.
- ExpertLayer.FusedExperts.LoadExpertWeight: the check of the parameter name is not modelled.
- MoeForward.Align: at the block size of 32 that the layer always uses.
- DecodeBatches.Scheduler.CheckDecodeMem: what a release frees is any amount; the release itself is `KVCacheManagement.KVCacheManager.ReleaseRequest`.
- PrefillAdmission.PrefillAdder.TryAddPrefill: the offsets at the start of a round and the fractional `new_token_ratio` of running requests are inputs.
- Chunked and mixed prefill end to end (`prepare_for_mixed`, `add_chunked_req`, `update_unfinished_req_radix_cache`): cached KV is not inserted there and budgets are exceeded on purpose.
- The scheduler's admission loop and the composition "allocation never fails" for prefill: the eviction triggers compare unaligned token counts, as `DecodeMemoryCheck` shows for decode.
- DecodeMemoryCheck.DecodeAfterCheck: when slots are short, the pages free after the eviction depend on the leaves that were freed; requires lengths that count as in `KVCacheManagement.KVCacheManager.GrowDecode`.
- CUDA streams, events, graph capture and pinned memory, except as the order in which steps take effect.
- Floating point, half-precision casts, the clamp just below one in the residual draw, and autotuning; `silu` is any function.
- Batch and head loops of the attention kernels, pointer strides and masks over head dimensions.
- Weak memory orders, node reclamation and reuse of addresses, and liveness of the lock-free containers (queue.cpp:81, stack.cpp:45); the stack's `empty`.
- `prepare_mlp`'s all-gather, the router's softmax and top-k, DP sharding.
- `PagedTokenAllocator.alloc`, `TokenAllocator`, `_print_helper`, statistics: easy members.
- Tokenizer, detokenizer, workers, loaders, configuration, logging and benchmarks.
