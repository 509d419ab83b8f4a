/** The scheduler's memory check against the decode step it clears: the check counts the pages the step
    opens and every token that could be evicted, the step evicts for its tokens only. */
module DecodeMemoryCheck {
  import opened Wrappers
  import opened Pages
  import opened Orders
  import opened PagedMemory
  import opened KVCacheManagement
  import RadixTree
  import DecodeBatches

  /** `available_tokens`: free slots and those of unlocked tree nodes. */
  ghost function AvailableTokens(kv: KVCacheManager): int
    reads kv.allocator, kv.cache
  {
    kv.allocator.AvailableSize() + kv.cache.evictableSize
  }

  /** A decode step that the check let through.  When there is a free slot for every request nothing is
      evicted, and the step is refused exactly when the rows open more pages than are free, however
      much could be evicted.  Else it is granted at least if they open no more pages than their tokens
      fill. */
  method DecodeAfterCheck(kv: KVCacheManager, reqs: seq<Req>, rowLens: seq<nat>, order: seq<nat>)
    returns (out: Option<seq<int>>)
    requires kv.Valid() && kv.allocator.isNotInFreeGroup && kv.pageSize > 1 && kv.ReadyToDecode(reqs)
    requires IsOrder(order, |reqs|) && |rowLens| == |reqs|
    requires forall i | 0 <= i < |reqs| :: rowLens[i] == |kv.loans[reqs[i]].row|
    requires DecodeBatches.Fits(Some(rowLens), |reqs|, kv.pageSize, AvailableTokens(kv))
    modifies kv`loans, kv`running, kv.pool`reqToToken
    modifies kv.cache`nodes, kv.cache`view, kv.cache`evictableSize, kv.cache.nodes`children, kv.allocator
    ensures kv.Valid()
    ensures |reqs| <= old(kv.allocator.AvailableSize()) ==>
        (out.Some? <==> GrowthPages(rowLens, |reqs|, kv.pageSize) <= |old(kv.allocator.freePages)|)
    ensures GrowthPages(rowLens, |reqs|, kv.pageSize) <= CeilDiv(|reqs|, kv.pageSize) ==> out.Some?
  {
    hide KVCacheManager.MadeRoom, KVCacheManager.ReadyToDecode, KVCacheManager.NextSlots, KVCacheManager.Grown,
         GrowthPages, RadixTree.RadixCache.Valid, KVCacheManager.Books;
    ghost var before, evictable := kv.allocator.freePages, kv.cache.evictableSize;
    ghost var nodes, view := kv.cache.nodes, kv.cache.view;
    ghost var free, last;
    out, free, last := kv.GrowDecode(reqs, rowLens, order);
    kv.RoomForPages(|reqs|, GrowthPages(rowLens, |reqs|, kv.pageSize), before, evictable, nodes, view, free, last);
  }
  /** Three full rows of four tokens, one free page and two evictable ones: the check passes with 12
      tokens for the three pages to open, and the step finds four slots for three tokens, evicts nothing
      and has one page for three. */
  lemma CheckedButRefused()
    ensures DecodeBatches.Fits(Some([4, 4, 4]), 3, 4, 1 * 4 + 8) && 3 <= 1 * 4
    ensures GrowthPages([4, 4, 4], 3, 4) == 3 > 1
  {
    OneTokenPage(5, 4);
    assert GrowthPages([4, 4, 4], 1, 4) == 1;
    assert GrowthPages([4, 4, 4], 2, 4) == 2;
  }
}
