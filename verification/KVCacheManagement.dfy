/** The KV cache manager of miniinfer/kvcache/kv_cache_manager.py: a request borrows a locked
    prefix from the radix cache, owns the pages of the rest of its row, and gives everything
    back on release. */
module KVCacheManagement {
  import opened Wrappers
  import opened Pages
  import opened Orders
  import opened PrefixMap
  import opened PagedMemory
  import opened PageOwnership
  import opened RequestRows
  import opened PageLedger
  import opened RequestTable
  import opened RadixTree
  import opened DecodeGrowth

  class Req {
    const originInputIds: seq<Token>
    var outputIds: seq<Token>
    var fillIds: seq<Token>
    var prefixIndices: seq<int>
    var cacheProtectedLen: nat
    var lastNode: TreeNode?
    var reqPoolIdx: int
    var extendInputLen: int

    constructor (tokenIds: seq<Token>)
      ensures originInputIds == tokenIds && outputIds == [] && reqPoolIdx == -1
    {
      originInputIds, outputIds, fillIds, prefixIndices := tokenIds, [], [], [];
      cacheProtectedLen, lastNode, reqPoolIdx, extendInputLen := 0, null, -1, 0;
    }

    function TokenIds(): seq<Token>
      reads this`outputIds
    {
      originInputIds + outputIds
    }
  }

  class KVCacheManager {
    const pageSize: nat
    const allocator: PagedTokenAllocator
    const cache: RadixCache
    const pool: RequestPool
    /** What every admitted request holds. */
    ghost var loans: map<Req, Loan>
    /** The admitted requests that have been given a row of the request table. */
    ghost var running: set<Req>

    constructor (size: nat, pageSize: nat, maxRequests: nat, maxContextLen: nat)
      requires pageSize > 0
      ensures Valid() && loans == map[] && running == {} && this.pageSize == pageSize
      ensures allocator.size == size && allocator.isNotInFreeGroup && |allocator.freePages| == size / pageSize
      ensures pool.maxRequests == maxRequests && pool.maxContextLen == maxContextLen
      ensures |pool.freeSlots| == maxRequests && cache.view == map[[] := []]
      ensures fresh(allocator) && fresh(cache) && fresh(pool) && fresh(cache.nodes)
    {
      var a := new PagedTokenAllocator(size, pageSize);
      var c := new RadixCache(a, pageSize);
      var p := new RequestPool(maxRequests, maxContextLen);
      this.pageSize, allocator, cache, pool := pageSize, a, c, p;
      loans, running := map[], {};
      new;
      hide *;
      InitialBooks();
    }

    lemma InitialBooks()
      requires pageSize > 0 && cache.Valid() && allocator.Valid() && pool.Valid() && allocator.isNotInFreeGroup
      requires cache.allocator == allocator && cache.pageSize == allocator.pageSize == pageSize
      requires loans == map[] && running == {}
      requires |allocator.freePages| == allocator.numPages
      requires forall i | 0 <= i < allocator.numPages :: allocator.freePages[i] == i + 1
      requires cache.view == map[[] := []] && cache.handles == []
      ensures Valid()
    {
      hide RadixCache.Valid, Partition, AllLaidOut;
      SettledOutsideGroup();
      forall page
        ensures page in Elements(allocator.freePages) <==> 1 <= page <= allocator.numPages
      {
        if 1 <= page <= allocator.numPages {
          assert allocator.freePages[page - 1] == page;
        }
      }
      EmptyPartition<Req>(Elements(allocator.freePages), pageSize, allocator.numPages);
      assert forall path :: Holders(loans, path) == {};
      assert AllLaidOut(cache.view, loans, pageSize) by { NothingLaidOut(cache.view, loans, pageSize); }
    }

    ghost predicate Parts()
      reads cache, cache.nodes, allocator, pool
    {
      && pageSize > 0 && cache.Valid() && allocator.Valid() && pool.Valid()
      && cache.allocator == allocator && cache.pageSize == allocator.pageSize == pageSize
    }

    /** Free pages, those of a pending free group included. */
    ghost function FreeSet(): set<int>
      requires allocator.pageSize > 0
      reads allocator
    {
      Elements(allocator.Settled())
    }

    /** The pages are shared out, slots sit at their offsets, and every loan has a lock on its
        prefix. */
    ghost predicate Books(ls: map<Req, Loan>)
      reads allocator, cache
    {
      && pageSize > 0 && allocator.pageSize == pageSize
      && Partition(FreeSet(), cache.view, ls, pageSize, allocator.numPages)
      && AllLaidOut(cache.view, ls, pageSize) && HandlesCover(ls, cache.handles)
    }

    /** The fields of an admitted request agree with its loan. */
    ghost predicate ReqOk(r: Req, l: Loan)
      reads r`lastNode, r`cacheProtectedLen, r`prefixIndices, r`outputIds, cache`nodes, cache.nodes`path
    {
      && r.lastNode != null && r.lastNode in cache.nodes && r.lastNode.path == l.path
      && r.cacheProtectedLen == |l.path| <= |l.row| && r.prefixIndices == l.row[..|l.path|]
      && l.path <= r.TokenIds()
    }

    ghost predicate ReqsOk(ls: map<Req, Loan>)
      reads ls.Keys`lastNode, ls.Keys`cacheProtectedLen, ls.Keys`prefixIndices, ls.Keys`outputIds, cache`nodes,
          cache.nodes`path
    {
      forall r | r in ls :: ReqOk(r, ls[r])
    }

    /** A running request has a row of its own in the request table, which holds its slots. */
    ghost predicate RowOk(r: Req, l: Loan)
      reads r`reqPoolIdx, pool
    {
      && 0 <= r.reqPoolIdx < |pool.reqToToken| && r.reqPoolIdx !in pool.freeSlots
      && |l.row| <= |pool.reqToToken[r.reqPoolIdx]| && pool.reqToToken[r.reqPoolIdx][..|l.row|] == l.row
    }

    /** Requests that are not running hold their prefix only. */
    ghost predicate RowsOk(ls: map<Req, Loan>, run: set<Req>)
      reads run`reqPoolIdx, pool
    {
      && (forall r | r in run :: r in ls && RowOk(r, ls[r]))
      && (forall r, s | r in run && s in run && r != s :: r.reqPoolIdx != s.reqPoolIdx)
      && (forall r | r in ls && r !in run :: |ls[r].row| == |ls[r].path|)
    }

    ghost predicate Valid()
      reads this, loans.Keys, cache, cache.nodes, allocator, pool
    {
      Parts() && Books(loans) && ReqsOk(loans) && running <= loans.Keys && RowsOk(loans, running)
    }

    /** The row of the request table that carries a running request. */
    lemma RunningRow(r: Req)
      requires Valid() && r in running
      ensures pageSize > 0 && r in loans && RowOk(r, loans[r]) && LaidOut(loans[r].row, pageSize)
    {
      hide RadixCache.Valid, PagedTokenAllocator.Valid, RequestPool.Valid, Partition, HandlesCover, LaidOut, ReqOk,
           RowOk;
    }

    lemma SettledOutsideGroup()
      requires allocator.Valid() && allocator.isNotInFreeGroup
      ensures allocator.Settled() == allocator.freePages
    {
    }

    /** The ledger moves to a state in which everything fits together again. */
    ghost method Record(ls: map<Req, Loan>, run: set<Req>)
      requires Parts() && Books(ls) && ReqsOk(ls) && run <= ls.Keys && RowsOk(ls, run)
      modifies this`loans, this`running
      ensures Valid() && loans == ls && running == run
    {
      hide Parts, Books, ReqsOk, RowsOk;
      loans, running := ls, run;
    }

    // ---------- Admission ----------

    /** Match, then lock the node that was found. */
    method LockPrefix(tokenIds: seq<Token>) returns (kvIndices: seq<int>, node: TreeNode)
      requires cache.Valid()
      modifies cache`nodes, cache`handles, cache`evictableSize, cache`protectedSize
      modifies cache.nodes`children, cache.nodes`parent, cache.nodes`key, cache.nodes`value, cache.nodes`lockRef
      ensures cache.Valid() && old(cache.nodes) <= cache.nodes && fresh(cache.nodes - old(cache.nodes))
      ensures node in cache.nodes && cache.handles == [node.path] + old(cache.handles)
      ensures cache.pageSize > 0 && LongestPrefix(cache.view, tokenIds, cache.pageSize, node.path, kvIndices)
    {
      hide RadixCache.Valid, IsMatchLen;
      kvIndices, node := cache.MatchPrefix(tokenIds);
      ghost var k := tokenIds[..AlignLen(|tokenIds|, cache.pageSize)];
      MatchLenFacts(cache.view, k, |kvIndices|, cache.pageSize);
      assert k[..|kvIndices|] == tokenIds[..|kvIndices|];
      var _ := cache.IncLockRef(node);
    }

    method BorrowPrefix(r: Req)
      requires cache.Valid() && ReqsOk(loans)
      modifies r`fillIds, r`prefixIndices, r`cacheProtectedLen, r`lastNode, r`extendInputLen
      modifies cache`nodes, cache`handles, cache`evictableSize, cache`protectedSize
      modifies cache.nodes`children, cache.nodes`parent, cache.nodes`key, cache.nodes`value, cache.nodes`lockRef
      ensures cache.Valid() && ReqsOk(loans - {r}) && r.lastNode != null && r.lastNode in cache.nodes
      ensures old(cache.nodes) <= cache.nodes && fresh(cache.nodes - old(cache.nodes))
      ensures cache.handles == [r.lastNode.path] + old(cache.handles)
      ensures r.fillIds == r.TokenIds() && r.extendInputLen == |r.fillIds| - r.cacheProtectedLen
      ensures r.cacheProtectedLen == |r.prefixIndices| && cache.pageSize > 0
      ensures LongestPrefix(cache.view, AllButLast(r.fillIds), cache.pageSize, r.lastNode.path, r.prefixIndices)
    {
      hide RadixCache.Valid, LongestPrefix, Aligned;
      r.fillIds := r.originInputIds + r.outputIds;
      var maxPrefixLen := if |r.fillIds| == 0 then 0 else |r.fillIds| - 1;
      var tokenIds := r.fillIds[..maxPrefixLen];
      var kvIndices, node := LockPrefix(tokenIds);
      r.prefixIndices := kvIndices;
      r.cacheProtectedLen := |kvIndices|;
      r.lastNode := node;
      r.extendInputLen := |r.fillIds| - r.cacheProtectedLen;
      assert AllButLast(r.fillIds) == tokenIds;
      forall q | q in loans && q != r
        ensures ReqOk(q, loans[q])
      {
        assert old(ReqOk(q, loans[q]));
      }
    }

    /** `prefix_for_waiting_req`: the request borrows, and locks, the longest stored
        page-aligned prefix of all its tokens but the last. */
    method PrefixForWaitingReq(r: Req)
      requires Valid() && r !in running
      modifies r`fillIds, r`prefixIndices, r`cacheProtectedLen, r`lastNode, r`extendInputLen, this`loans, this`running
      modifies cache`nodes, cache`handles, cache`evictableSize, cache`protectedSize
      modifies cache.nodes`children, cache.nodes`parent, cache.nodes`key, cache.nodes`value, cache.nodes`lockRef
      ensures Valid() && running == old(running)
      ensures r.fillIds == r.TokenIds() && r.extendInputLen == |r.fillIds| - r.cacheProtectedLen
      ensures r in loans && loans == old(loans)[r := loans[r]] && cache.handles == [loans[r].path] + old(cache.handles)
      ensures LongestPrefix(cache.view, AllButLast(r.fillIds), pageSize, loans[r].path, loans[r].row)
    {
      hide RadixCache.Valid, PagedTokenAllocator.Valid, RequestPool.Valid, LongestPrefix, Partition, HandlesCover,
           LaidOut, RowOk;
      BorrowPrefix(r);
      ghost var l := Loan(r.lastNode.path, r.prefixIndices);
      LongestPrefixFacts(cache.view, AllButLast(r.fillIds), pageSize, l.path, l.row);
      AdmitKeepsPartition(FreeSet(), cache.view, loans, r, l.path, pageSize, allocator.numPages);
      AdmitKeepsCover(loans, old(cache.handles), r, l);
      assert ReqsOk(loans[r := l]);
      assert RowsOk(loans[r := l], running);
      Record(loans[r := l], running);
    }

    // ---------- Release ----------

    /** Frees a stretch of a row. */
    method FreeStretch(row: seq<int>, a: nat, b: nat)
      requires allocator.Valid() && a <= b <= |row|
      requires RealPages(RowPages(row, a, b, allocator.pageSize), allocator.numPages)
      modifies allocator
      ensures allocator.Valid() && allocator.isNotInFreeGroup == old(allocator.isNotInFreeGroup)
      ensures FreeSet() == old(FreeSet()) + RowPages(row, a, b, allocator.pageSize)
    {
      FreeRow(allocator.Settled(), row, a, b, allocator.pageSize, allocator.numPages);
      allocator.Free(row[a..b]);
    }

    /** The first half of `release_request`: insert the row, then free what the cache already
        had and the tail that does not fill a page. */
    method InsertAndFree(tokenIds: seq<Token>, kvIndices: seq<int>, cacheProtectedLen: nat) returns (ghost m: nat)
      requires Parts() && |tokenIds| == |kvIndices| >= cacheProtectedLen && Aligned(cacheProtectedLen, pageSize)
      requires RealPages(RowPages(kvIndices, cacheProtectedLen, |kvIndices|, pageSize), allocator.numPages)
      requires tokenIds[..cacheProtectedLen] in cache.view
      modifies cache`nodes, cache`view, cache`evictableSize
      modifies cache.nodes`children, cache.nodes`parent, cache.nodes`key, cache.nodes`value, allocator
      ensures Parts() && old(cache.nodes) <= cache.nodes && fresh(cache.nodes - old(cache.nodes))
      ensures allocator.isNotInFreeGroup == old(allocator.isNotInFreeGroup)
      ensures Released(old(FreeSet()), old(cache.view), Loan(tokenIds[..cacheProtectedLen], kvIndices), tokenIds, true,
          m,
                       FreeSet(), cache.view, pageSize)
    {
      hide RadixCache.Valid, PagedTokenAllocator.Valid, RequestPool.Valid, AddPages, RowPages;
      var n := |tokenIds|;
      ghost var key := tokenIds[..AlignLen(n, pageSize)];
      AlignLenIsFloor(n, pageSize);
      AlignLenAtLeast(cacheProtectedLen, n, pageSize);
      assert key[..cacheProtectedLen] == tokenIds[..cacheProtectedLen];
      var pageAlignedLen := n / pageSize * pageSize;
      var newPrefixLen := cache.Insert(tokenIds, Some(kvIndices));
      m := newPrefixLen;
      MatchLenFacts(old(cache.view), key, m, pageSize);
      assert kvIndices[..|key|][m..] == kvIndices[m..|key|];
      FreeAround(kvIndices, cacheProtectedLen, newPrefixLen, pageAlignedLen);
    }

    method FreeAround(kvIndices: seq<int>, cacheProtectedLen: nat, newPrefixLen: nat, pageAlignedLen: nat)
      requires allocator.Valid() && cacheProtectedLen <= newPrefixLen <= pageAlignedLen <= |kvIndices|
      requires RealPages(RowPages(kvIndices, cacheProtectedLen, |kvIndices|, allocator.pageSize), allocator.numPages)
      modifies allocator
      ensures allocator.Valid() && allocator.isNotInFreeGroup == old(allocator.isNotInFreeGroup)
      ensures FreeSet() == old(FreeSet()) + RowPages(kvIndices, cacheProtectedLen, newPrefixLen, allocator.pageSize)
                                          + RowPages(kvIndices, pageAlignedLen, |kvIndices|, allocator.pageSize)
    {
      RowInPieces(kvIndices, cacheProtectedLen, newPrefixLen, pageAlignedLen, allocator.pageSize, allocator.numPages);
      hide RowPages;
      if newPrefixLen > cacheProtectedLen {
        FreeStretch(kvIndices, cacheProtectedLen, newPrefixLen);
      }
      if pageAlignedLen < |kvIndices| {
        FreeStretch(kvIndices, pageAlignedLen, |kvIndices|);
      }
    }

    /** `release_request` and `update_finished_req_radix_cache`: with insertion the cache takes
        over the aligned part of the row that it did not hold yet, everything else the request
        owned becomes free; without, everything it owned becomes free.  Inside a free group the
        frees are pending, which `FreeSet` counts as free. */
    method ReleaseRequest(r: Req, isInsert: bool) returns (ok: bool, ghost m: nat)
      requires Valid() && (r.reqPoolIdx >= 0 ==> r in running && |r.TokenIds()| == |loans[r].row|)
      modifies this`loans, this`running, cache`nodes, cache`view, cache`evictableSize, cache`protectedSize,
          cache`handles
      modifies cache.nodes`children, cache.nodes`parent, cache.nodes`key, cache.nodes`value, cache.nodes`lockRef
      modifies allocator, pool`freeSlots
      ensures Valid() && (ok <==> r.reqPoolIdx >= 0) && allocator.isNotInFreeGroup == old(allocator.isNotInFreeGroup)
      ensures !ok ==> loans == old(loans) && running == old(running)
      ensures !ok ==> cache.view == old(cache.view) && FreeSet() == old(FreeSet())
      ensures !ok ==> cache.handles == old(cache.handles) && pool.freeSlots == old(pool.freeSlots)
      ensures ok ==> loans == old(loans) - {r} && running == old(running) - {r}
      ensures ok ==> pool.freeSlots == old(pool.freeSlots) + [r.reqPoolIdx]
      ensures ok ==> multiset(cache.handles) == multiset(old(cache.handles)) - multiset{old(loans)[r].path}
      ensures ok ==> Released(old(FreeSet()), old(cache.view), old(loans)[r], r.TokenIds(), isInsert, m, FreeSet(),
          cache.view, pageSize)
    {
      hide RadixCache.Valid, PagedTokenAllocator.Valid, RequestPool.Valid, Partition, HandlesCover, LaidOut, Released,
           RowOk;
      m := 0;
      if r.reqPoolIdx < 0 {
        return false, m;
      }
      m := GiveBackPages(r, isInsert);
      forall q | q in loans
        ensures ReqOk(q, loans[q])
      {
        assert old(ReqOk(q, loans[q]));
      }
      ReturnRowAndLock(r);
      Record(loans - {r}, running - {r});
      ok := true;
    }

    /** The second half of `release_request`: the row and the lock go back. */
    method ReturnRowAndLock(r: Req)
      requires Parts() && r in running && running <= loans.Keys && ReqOk(r, loans[r]) && RowsOk(loans, running)
      requires HandlesCover(loans, cache.handles)
      modifies pool`freeSlots, cache`handles, cache`evictableSize, cache`protectedSize, cache.nodes`lockRef
      ensures Parts() && RowsOk(loans - {r}, running - {r}) && HandlesCover(loans - {r}, cache.handles)
      ensures pool.freeSlots == old(pool.freeSlots) + [r.reqPoolIdx]
      ensures multiset(cache.handles) == multiset(old(cache.handles)) - multiset{loans[r].path}
    {
      hide RadixCache.Valid, HandlesCover, LaidOut, PagedTokenAllocator.Valid;
      assert RowOk(r, loans[r]);
      CoveredIsHeld(loans, cache.handles, r);
      pool.Free(r.reqPoolIdx);
      var _ := cache.DecLockRef(r.lastNode);
      ReleaseKeepsCover(loans, old(cache.handles), cache.handles, r);
      forall q | q in running && q != r
        ensures RowOk(q, loans[q])
      {
        assert old(RowOk(q, loans[q]));
      }
    }

    method GiveBackPages(r: Req, isInsert: bool) returns (ghost m: nat)
      requires Parts() && Books(loans) && r in loans && ReqOk(r, loans[r]) && RowOk(r, loans[r])
      requires |r.TokenIds()| == |loans[r].row|
      modifies cache`nodes, cache`view, cache`evictableSize
      modifies cache.nodes`children, cache.nodes`parent, cache.nodes`key, cache.nodes`value, allocator
      ensures Parts() && old(cache.nodes) <= cache.nodes && fresh(cache.nodes - old(cache.nodes))
      ensures allocator.isNotInFreeGroup == old(allocator.isNotInFreeGroup)
      ensures Released(old(FreeSet()), old(cache.view), loans[r], r.TokenIds(), isInsert, m, FreeSet(), cache.view,
          pageSize)
      ensures Partition(FreeSet(), cache.view, loans - {r}, pageSize, allocator.numPages)
      ensures AllLaidOut(cache.view, loans - {r}, pageSize)
    {
      hide RadixCache.Valid, PagedTokenAllocator.Valid, Partition, HandlesCover, LaidOut, AddPages, RowPages,
           IsMatchLen, Aligned;
      var tokenIds := r.originInputIds + r.outputIds;
      ghost var l := loans[r];
      var kvIndices := pool.Read(r.reqPoolIdx, |tokenIds|);
      assert tokenIds[..|l.path|] == l.path;
      LoanFacts(FreeSet(), cache.view, loans, r, pageSize, allocator.numPages);
      if isInsert {
        m := InsertAndFree(tokenIds, kvIndices, r.cacheProtectedLen);
        assert Loan(tokenIds[..r.cacheProtectedLen], kvIndices) == l;
        ReleasedKeepsPartition(old(FreeSet()), old(cache.view), loans, r, tokenIds, m, pageSize, allocator.numPages);
        ReleaseKeepsLayout(old(cache.view), loans, r, tokenIds[..AlignLen(|tokenIds|, pageSize)], m, pageSize);
      } else {
        m := 0;
        FreeStretch(kvIndices, r.cacheProtectedLen, |kvIndices|);
        DropKeepsPartition(old(FreeSet()), cache.view, loans, r, pageSize, allocator.numPages);
      }
    }

    // ---------- Extension ----------

    /** A round of eviction: locked prefixes and the nodes that hold them stay.  As much is freed as
        `Evict` says. */
    method EvictFor(numTokens: int) returns (ghost last: TreeNode?)
      requires Parts() && Books(loans) && ReqsOk(loans) && allocator.isNotInFreeGroup
      modifies cache`nodes, cache`view, cache`evictableSize, cache.nodes`children, allocator
      ensures Parts() && Books(loans) && ReqsOk(loans) && allocator.isNotInFreeGroup
      ensures allocator.AvailableSize() - old(allocator.AvailableSize())
        == old(cache.evictableSize) - cache.evictableSize >= 0
      ensures numTokens <= 0 ==> last == null
      ensures last == null ==> cache.nodes == old(cache.nodes) && cache.view == old(cache.view)
      ensures last == null ==> allocator.freePages == old(allocator.freePages)
      ensures last != null ==>
        && last in old(cache.nodes) && last !in cache.nodes && last.lockRef == 0 && Aligned(|last.key|, pageSize)
        && allocator.AvailableSize() - old(allocator.AvailableSize()) - |last.key| < numTokens
      ensures allocator.AvailableSize() - old(allocator.AvailableSize()) < numTokens ==>
        cache.evictableSize == 0 && forall n | n in cache.nodes :: n.lockRef > 0
      ensures forall p | p in cache.view :: p in old(cache.view) && cache.view[p] == old(cache.view)[p]
    {
      hide RadixCache.Valid, Partition, HandlesCover, LaidOut, OwnsPages, Aligned;
      PartitionFacts(FreeSet(), cache.view, loans, pageSize, allocator.numPages);
      SettledOutsideGroup();
      cache.ValidShape();
      cache.PathsUnique();
      last := cache.Evict(numTokens);
      SettledOutsideGroup();
      forall q | q in loans
        ensures loans[q].path in cache.view && ReqOk(q, loans[q])
      {
        CoveredIsHeld(loans, cache.handles, q);
        assert old(ReqOk(q, loans[q]));
        var n := cache.HandleHasNode(loans[q].path);
      }
      EvictKeepsPartition(old(FreeSet()), old(cache.view), FreeSet(), cache.view, loans, pageSize, allocator.numPages);
    }

    /** What `prepare_for_extend` is given: different admitted requests, their token strings
        cut no shorter than the borrowed prefix. */
    ghost predicate ReadyToExtend(reqs: seq<Req>)
      reads this, Elements(reqs), pool
    {
      && Distinct(reqs)
      && forall i | 0 <= i < |reqs| ::
           && reqs[i] in loans && reqs[i] !in running
           && |loans[reqs[i]].path| <= |reqs[i].fillIds| <= pool.maxContextLen
           && reqs[i].extendInputLen == |reqs[i].fillIds| - |loans[reqs[i]].path|
    }

    /** The requests have been given rows that nobody else uses. */
    ghost predicate NewRows(reqs: seq<Req>, rows: seq<nat>)
      reads this`running, running`reqPoolIdx, Elements(reqs)`reqPoolIdx, pool`freeSlots
    {
      && |rows| == |reqs| && Distinct(rows)
      && forall i | 0 <= i < |rows| ::
           && rows[i] < pool.maxRequests && rows[i] !in pool.freeSlots && reqs[i].reqPoolIdx == rows[i]
           && forall q | q in running :: q.reqPoolIdx != rows[i]
    }

    /** The allocated row numbers are recorded on the requests. */
    method StampRows(reqs: seq<Req>, rows: seq<nat>)
      requires |rows| == |reqs| && Distinct(reqs)
      modifies Elements(reqs)`reqPoolIdx
      ensures forall i | 0 <= i < |reqs| :: reqs[i].reqPoolIdx == rows[i]
    {
      for i := 0 to |reqs|
        invariant forall k | 0 <= k < i :: reqs[k].reqPoolIdx == rows[k]
      {
        reqs[i].reqPoolIdx := rows[i];
      }
    }

    /** The first free rows of the table now carry the requests. */
    ghost predicate RowsTaken(before: seq<nat>, reqs: seq<Req>)
      reads Elements(reqs)`reqPoolIdx, pool`freeSlots
    {
      && |reqs| <= |before| && pool.freeSlots == before[|reqs|..]
      && forall i | 0 <= i < |reqs| :: reqs[i].reqPoolIdx == before[i]
    }

    method AssignRows(reqs: seq<Req>) returns (rows: Option<seq<nat>>)
      requires pool.Valid() && RowsOk(loans, running) && ReadyToExtend(reqs)
      modifies pool`freeSlots, Elements(reqs)`reqPoolIdx
      ensures pool.Valid() && RowsOk(loans, running) && (rows.Some? <==> |reqs| <= |old(pool.freeSlots)|)
      ensures rows.Some? ==> NewRows(reqs, rows.value) && RowsTaken(old(pool.freeSlots), reqs)
      ensures rows.None? ==> pool.freeSlots == old(pool.freeSlots)
      ensures ReadyToExtend(reqs)
    {
      assert forall q | q in running :: q !in reqs && RowOk(q, loans[q]);
      rows := pool.Alloc(|reqs|);
      if rows.Some? {
        DistinctSplit(old(pool.freeSlots), |reqs|);
        StampRows(reqs, rows.value);
      }
    }

    /** The extend batch of the requests: prefix length, new length, last borrowed slot. */
    method BuildBatch(reqs: seq<Req>) returns (batch: seq<Extend>, prefixes: seq<seq<int>>, extendNumTokens: nat)
      requires ReadyToExtend(reqs) && ReqsOk(loans) && running <= loans.Keys && RowsOk(loans, running)
      ensures BatchOf(reqs, batch) && PrefixesOf(reqs, batch, prefixes)
      ensures extendNumTokens == TokensBefore(batch, |batch|)
    {
      batch, prefixes, extendNumTokens := [], [], 0;
      for i := 0 to |reqs|
        invariant |batch| == |prefixes| == i && Growing(batch) && extendNumTokens == TokensBefore(batch, |batch|)
        invariant forall k | 0 <= k < i ::
          && batch[k].pre == |loans[reqs[k]].path| && batch[k].len == |reqs[k].fillIds|
               && prefixes[k] == loans[reqs[k]].row
      {
        var r := reqs[i];
        assert ReqOk(r, loans[r]) && |loans[r].row| == |loans[r].path|;
        var last := if |r.prefixIndices| > 0 then r.prefixIndices[|r.prefixIndices| - 1] else -1;
        var e := Extend(|r.prefixIndices|, |r.fillIds|, last);
        TokensBeforeSnoc(batch, e);
        batch, prefixes := batch + [e], prefixes + [r.prefixIndices];
        extendNumTokens := extendNumTokens + (|r.fillIds| - |r.prefixIndices|);
      }
    }

    /** What room was made for `n` slots: none if that many were free; else leaves were freed until they
        are, without the last one they would not be, or nothing unlocked is left.  `before` and
        `evictable` are the free list and the unlocked tokens at first, `free` is the free list after. */
    ghost predicate MadeRoom(n: nat, before: seq<int>, evictable: int, nodes: set<TreeNode>, view: View,
        free: seq<int>, last: TreeNode?)
      reads cache, cache.nodes, last
    {
      && |free| >= |before| && |free| * pageSize + cache.evictableSize == |before| * pageSize + evictable
      && (|before| * pageSize >= n ==> last == null)
      && (last == null ==> cache.nodes == nodes && cache.view == view && free == before)
      && (last != null ==>
            last in nodes && last !in cache.nodes && last.lockRef == 0 && |free| * pageSize - |last.key| < n)
      && (|free| * pageSize >= n || (cache.evictableSize == 0 && forall x | x in cache.nodes :: x.lockRef > 0))
    }

    /** Room made for `n` slots is room for `pages` pages, if they are no more than what the slots need
        or what was free, and what was free or evictable covers them.  With the slots free at first no
        room is made at all. */
    lemma RoomForPages(n: nat, pages: nat, before: seq<int>, evictable: int, nodes: set<TreeNode>, view: View,
        free: seq<int>, last: TreeNode?)
      requires pageSize > 0 && MadeRoom(n, before, evictable, nodes, view, free, last)
      ensures |before| * pageSize >= n ==> free == before
      ensures pages * pageSize <= |before| * pageSize + evictable ==>
          (pages <= |before| || pages <= CeilDiv(n, pageSize) ==> pages <= |free|)
    {
      if pages > |free| {
        assert pages * pageSize == |free| * pageSize + (pages - |free|) * pageSize;
        MulAtLeast(pages - |free|, pageSize);
        CeilDivBounds(n, pageSize);
        if pages <= CeilDiv(n, pageSize) {
          assert (CeilDiv(n, pageSize) - pages) * pageSize >= 0;
          assert CeilDiv(n, pageSize) * pageSize == pages * pageSize + (CeilDiv(n, pageSize) - pages) * pageSize;
        }
      }
    }

    lemma NoRoomNeeded()
      ensures MadeRoom(
        0, allocator.freePages, cache.evictableSize, cache.nodes, cache.view, allocator.freePages, null)
    {
    }

    /** `prepare_for_extend` evicts when the free slots do not suffice, rounded up to pages. */
    method EvictIfShort(numTokens: nat) returns (ghost last: TreeNode?)
      requires Parts() && Books(loans) && ReqsOk(loans) && allocator.isNotInFreeGroup
      modifies cache`nodes, cache`view, cache`evictableSize, cache.nodes`children, allocator
      ensures Parts() && Books(loans) && ReqsOk(loans) && allocator.isNotInFreeGroup
      ensures MadeRoom(numTokens, old(allocator.freePages), old(cache.evictableSize), old(cache.nodes),
        old(cache.view), allocator.freePages, last)
      ensures forall p | p in cache.view :: p in old(cache.view) && cache.view[p] == old(cache.view)[p]
    {
      hide RadixCache.Valid, Partition, HandlesCover, LaidOut, ReqOk, Aligned;
      last := null;
      var available := allocator.AvailableSize();
      if available < numTokens {
        var neededToEvict := numTokens - available;
        neededToEvict := (neededToEvict + pageSize - 1) / pageSize * pageSize;
        CeilDivBounds(numTokens - available, pageSize);
        last := EvictFor(neededToEvict);
        MulCancel(|old(allocator.freePages)|, |allocator.freePages|, pageSize);
        if last != null {
          BelowRoundUp(|allocator.freePages|, |old(allocator.freePages)|, |last.key|, numTokens, pageSize);
        }
      }
    }

    /** The batch, the prefixes and the rows that `prepare_for_extend` computes. */
    ghost predicate BatchOf(reqs: seq<Req>, batch: seq<Extend>)
      reads this`loans, Elements(reqs)`fillIds
    {
      && |batch| == |reqs| && Growing(batch)
      && forall i | 0 <= i < |reqs| ::
           && reqs[i] in loans && batch[i].pre == |loans[reqs[i]].path| == |loans[reqs[i]].row|
                && batch[i].len == |reqs[i].fillIds|
    }

    /** The prefixes are what the requests have borrowed, and their new rows fit the table. */
    ghost predicate PrefixesOf(reqs: seq<Req>, batch: seq<Extend>, prefixes: seq<seq<int>>)
      reads this`loans
    {
      && |prefixes| == |batch| == |reqs|
      && forall i | 0 <= i < |reqs| ::
           reqs[i] in loans && prefixes[i] == loans[reqs[i]].row && batch[i].len <= pool.maxContextLen
    }

    /** The table holds the extended row of every request of the batch. */
    ghost predicate RowsHold(reqs: seq<Req>, rows: seq<nat>, slots: seq<seq<int>>)
      reads this`loans, pool
    {
      && |reqs| == |rows| == |slots|
      && forall i | 0 <= i < |reqs| :: reqs[i] in loans && RowHolds(rows[i], loans[reqs[i]].row, slots[i])
    }

    ghost predicate RowHolds(index: nat, row: seq<int>, slots: seq<int>)
      reads pool
    {
      && index < |pool.reqToToken| && |row| + |slots| <= |pool.reqToToken[index]|
      && pool.reqToToken[index][..|row| + |slots|] == row + slots
    }

    /** The kernel fills the rows of the new requests and no other. */
    method WriteRows(reqs: seq<Req>, order: seq<nat>, rows: seq<nat>, prefixes: seq<seq<int>>, batch: seq<Extend>,
        out: seq<int>)
      requires pool.Valid() && RowsOk(loans, running) && NewRows(reqs, rows) && BatchOf(reqs, batch)
      requires IsOrder(order, |batch|)
      requires PrefixesOf(reqs, batch, prefixes)
      requires |out| == TokensBefore(batch, |batch|)
      modifies pool`reqToToken
      ensures pool.Valid() && RowsOk(loans, running) && RowsHold(reqs, rows, Segments(batch, out, |batch|))
    {
      hide TokensBefore, Segment, Segments, Overlay;
      pool.WriteCacheIndices(order, rows, prefixes, batch, out);
      RowsAreHeld(reqs, old(pool.reqToToken), rows, prefixes, batch, out);
      forall q | q in running
        ensures RowOk(q, loans[q])
      {
        assert old(RowOk(q, loans[q]));
        assert q.reqPoolIdx !in rows;
      }
    }

    lemma RowsAreHeld(reqs: seq<Req>, before: seq<seq<int>>, rows: seq<nat>, prefixes: seq<seq<int>>,
        batch: seq<Extend>, out: seq<int>)
      requires BatchOf(reqs, batch) && |rows| == |prefixes| == |reqs|
      requires pool.FitsTable(rows, prefixes, batch, out) && |out| == TokensBefore(batch, |batch|)
      requires forall i | 0 <= i < |reqs| :: prefixes[i] == loans[reqs[i]].row
      requires forall i: nat | i < |batch| :: pool.RowWritten(before, i, rows, prefixes, batch, out)
      ensures RowsHold(reqs, rows, Segments(batch, out, |batch|))
    {
      hide TokensBefore, Segment, Segments, RowHolds;
      var slots := Segments(batch, out, |batch|);
      forall i: nat | i < |reqs|
        ensures reqs[i] in loans && RowHolds(rows[i], loans[reqs[i]].row, slots[i])
      {
        assert pool.RowWritten(before, i, rows, prefixes, batch, out);
        RowIsHeld(rows[i], prefixes[i], Segment(batch, i, out), before[rows[i]][batch[i].len..]);
      }
    }

    lemma RowIsHeld(index: nat, row: seq<int>, slots: seq<int>, tail: seq<int>)
      requires index < |pool.reqToToken| && pool.reqToToken[index] == row + slots + tail
      ensures RowHolds(index, row, slots)
    {
    }

    /** One loan of the extended ledger. */
    lemma ExtendedLoan(before: map<Req, Loan>, reqs: seq<Req>, slots: seq<seq<int>>, q: Req)
      requires |slots| == |reqs| && Distinct(reqs) && (forall i | 0 <= i < |reqs| :: reqs[i] in before) && q in before
      ensures var l := LoansAfter(before, reqs, slots, |reqs|)[q];
        && l.path == before[q].path && before[q].row <= l.row && (q !in reqs ==> l == before[q])
        && forall i | 0 <= i < |reqs| && reqs[i] == q :: l.row == before[q].row + slots[i]
    {
      if i :| 0 <= i < |reqs| && reqs[i] == q {
        Extended(before, reqs, slots, |reqs|, i);
        assert forall j | 0 <= j < |reqs| && reqs[j] == q :: j == i;
      } else {
        NotYetExtended(before, reqs, slots, |reqs|, q);
      }
    }

    lemma ExtensionKeepsReqs(reqs: seq<Req>, slots: seq<seq<int>>)
      requires ReqsOk(loans) && |slots| == |reqs| && Distinct(reqs) && forall i | 0 <= i < |reqs| :: reqs[i] in loans
      ensures ReqsOk(LoansAfter(loans, reqs, slots, |reqs|))
    {
      hide LoansAfter;
      var after := LoansAfter(loans, reqs, slots, |reqs|);
      forall q | q in after
        ensures ReqOk(q, after[q])
      {
        ExtendedLoan(loans, reqs, slots, q);
        assert ReqOk(q, loans[q]);
        assert after[q].row[..|loans[q].path|] == loans[q].row[..|loans[q].path|];
      }
    }

    lemma ExtensionKeepsRows(reqs: seq<Req>, rows: seq<nat>, slots: seq<seq<int>>)
      requires RowsOk(loans, running) && NewRows(reqs, rows) && RowsHold(reqs, rows, slots) && Distinct(reqs)
      requires |slots| == |reqs| && forall i | 0 <= i < |reqs| :: reqs[i] in loans
      ensures RowsOk(LoansAfter(loans, reqs, slots, |reqs|), running + Elements(reqs))
      ensures running + Elements(reqs) <= loans.Keys
    {
      hide LoansAfter, NewRows, RowsHold;
      var after := LoansAfter(loans, reqs, slots, |reqs|);
      RowsDiffer(reqs, rows);
      forall q | q in after
        ensures q in running + Elements(reqs) ==> RowOk(q, after[q])
        ensures q !in running + Elements(reqs) ==> |after[q].row| == |after[q].path|
      {
        ExtendedLoan(loans, reqs, slots, q);
        if i :| 0 <= i < |reqs| && reqs[i] == q {
          NewRowOk(reqs, rows, slots, i);
        } else if q in running {
          assert RowOk(q, loans[q]);
        }
      }
    }

    lemma NewRowOk(reqs: seq<Req>, rows: seq<nat>, slots: seq<seq<int>>, i: nat)
      requires NewRows(reqs, rows) && RowsHold(reqs, rows, slots) && i < |reqs|
      ensures RowOk(reqs[i], Loan(loans[reqs[i]].path, loans[reqs[i]].row + slots[i]))
    {
    }

    lemma RowsDiffer(reqs: seq<Req>, rows: seq<nat>)
      requires RowsOk(loans, running) && NewRows(reqs, rows)
      ensures forall q, s | q in running + Elements(reqs) && s in running + Elements(reqs) && q != s ::
          q.reqPoolIdx != s.reqPoolIdx
    {
    }

    /** The slots of a successful extension, request by request. */
    ghost predicate ExtendedBy(before: map<Req, Loan>, reqs: seq<Req>, batch: seq<Extend>, out: seq<int>)
      reads this`loans
    {
      && |batch| == |reqs| && Growing(batch) && |out| == TokensBefore(batch, |batch|) && loans.Keys == before.Keys
      && (forall q | q in before && q !in reqs :: loans[q] == before[q])
      && (forall i: nat | i < |reqs| ::
            reqs[i] in before &&
            loans[reqs[i]] == Loan(before[reqs[i]].path, before[reqs[i]].row + Segment(batch, i, out)))
    }

    /** All slots of the batch are handed out in order from the front of the free list if the pages it
        opens are there, and none otherwise. */
    ghost predicate TakenFrom(batch: seq<Extend>, free: seq<int>, out: Option<seq<int>>, rest: seq<int>) {
      && pageSize > 0 && Growing(batch)
      && (out.Some? <==> OpenedBefore(batch, |batch|, pageSize) <= |free|)
      && (out.Some? ==>
            && out.value == ExtendBatch(batch, |batch|, free, pageSize)
            && rest == free[OpenedBefore(batch, |batch|, pageSize)..])
      && (out.None? ==> rest == free)
    }

    /** Allocation for the whole batch; the pages taken now belong to the extended loans. */
    method AllocateExtend(reqs: seq<Req>, batch: seq<Extend>, extendNumTokens: nat, order: seq<nat>)
      returns (out: Option<seq<int>>)
      requires Parts() && Books(loans) && BatchOf(reqs, batch) && Distinct(reqs) && allocator.isNotInFreeGroup
      requires extendNumTokens == TokensBefore(batch, |batch|) && IsOrder(order, |batch|)
      modifies allocator
      ensures Parts() && (out.None? ==> Books(loans))
      ensures TakenFrom(batch, old(allocator.freePages), out, allocator.freePages)
      ensures out.Some? ==> |out.value| == TokensBefore(batch, |batch|)
      ensures out.Some? ==> Books(LoansAfter(loans, reqs, Segments(batch, out.value, |batch|), |reqs|))
    {
      hide RadixCache.Valid, Partition, HandlesCover, LaidOut, RequestPool.Valid, LoansAfter, GrowsLoans, OpenedBefore,
           TokensBefore, ExtendBatch, SlotsOf;
      SettledOutsideGroup();
      ghost var free := allocator.freePages;
      out := allocator.AllocExtend(batch, extendNumTokens, order);
      SettledOutsideGroup();
      if out.Some? {
        ghost var slots := Segments(batch, out.value, |batch|);
        BatchGrowsLoans(loans, reqs, batch, out.value, free, pageSize);
        ExtendBatchKeepsPartition(free, cache.view, loans, reqs, batch, slots, |reqs|, pageSize, allocator.numPages);
        ExtendBatchKeepsCover(loans, reqs, slots, |reqs|, cache.handles);
        PartitionFacts(Elements(free), cache.view, loans, pageSize, allocator.numPages);
        ExtendBatchKeepsLayout(free, cache.view, loans, reqs, batch, slots, |reqs|, pageSize);
      }
    }

    /** The kernel's output reaches the request table and the ledger. */
    method FinishExtend(reqs: seq<Req>, rows: seq<nat>, prefixes: seq<seq<int>>, batch: seq<Extend>, out: seq<int>,
        order: seq<nat>)
      requires Parts() && ReqsOk(loans) && RowsOk(loans, running) && NewRows(reqs, rows) && Distinct(reqs)
      requires BatchOf(reqs, batch)
      requires PrefixesOf(reqs, batch, prefixes)
      requires |out| == TokensBefore(batch, |batch|) && IsOrder(order, |batch|)
      requires Books(LoansAfter(loans, reqs, Segments(batch, out, |batch|), |reqs|))
      modifies this`loans, this`running, pool`reqToToken
      ensures Valid() && running == old(running) + Elements(reqs) && ExtendedBy(old(loans), reqs, batch, out)
    {
      hide RadixCache.Valid, PagedTokenAllocator.Valid, RequestPool.Valid, Partition, HandlesCover, LaidOut,
           LoansAfter, ReqOk, RowsOk, ExtendedBy, Books, RowsHold, BatchOf, PrefixesOf;
      BatchFacts(reqs, batch);
      ghost var slots := Segments(batch, out, |batch|);
      WriteRows(reqs, order, rows, prefixes, batch, out);
      ExtensionKeepsReqs(reqs, slots);
      ExtensionKeepsRows(reqs, rows, slots);
      Record(LoansAfter(loans, reqs, slots, |reqs|), running + Elements(reqs));
      ExtendedLoans(old(loans), reqs, batch, out);
    }

    lemma BatchFacts(reqs: seq<Req>, batch: seq<Extend>)
      requires BatchOf(reqs, batch)
      ensures |batch| == |reqs| && Growing(batch) && forall i | 0 <= i < |reqs| :: reqs[i] in loans
    {
    }

    lemma ExtendedLoans(before: map<Req, Loan>, reqs: seq<Req>, batch: seq<Extend>, out: seq<int>)
      requires |batch| == |reqs| && Distinct(reqs) && (forall i | 0 <= i < |reqs| :: reqs[i] in before)
      requires Growing(batch) && |out| == TokensBefore(batch, |batch|)
      requires loans == LoansAfter(before, reqs, Segments(batch, out, |batch|), |reqs|)
      ensures ExtendedBy(before, reqs, batch, out)
    {
      hide TokensBefore, LoansAfter;
      forall q | q in before
        ensures q !in reqs ==> loans[q] == before[q]
      {
        ExtendedLoan(before, reqs, Segments(batch, out, |batch|), q);
      }
      forall i: nat | i < |reqs|
        ensures loans[reqs[i]] == Loan(before[reqs[i]].path, before[reqs[i]].row + Segment(batch, i, out))
      {
        ExtendedLoan(before, reqs, Segments(batch, out, |batch|), reqs[i]);
      }
    }

    /** The batch metadata, and the eviction, which leaves alone what was reserved. */
    method PlanExtend(reqs: seq<Req>, rows: seq<nat>, ghost before: seq<nat>)
      returns (batch: seq<Extend>, prefixes: seq<seq<int>>, extendNumTokens: nat, ghost last: TreeNode?)
      requires Parts() && Books(loans) && ReqsOk(loans) && RowsOk(loans, running) && allocator.isNotInFreeGroup
      requires running <= loans.Keys && ReadyToExtend(reqs) && RowsTaken(before, reqs) && NewRows(reqs, rows)
      modifies cache`nodes, cache`view, cache`evictableSize, cache.nodes`children, allocator
      ensures Parts() && Books(loans) && ReqsOk(loans) && RowsOk(loans, running) && allocator.isNotInFreeGroup
      ensures RowsTaken(before, reqs) && NewRows(reqs, rows) && BatchOf(reqs, batch)
      ensures PrefixesOf(reqs, batch, prefixes) && extendNumTokens == TokensBefore(batch, |batch|)
      ensures MadeRoom(extendNumTokens, old(allocator.freePages), old(cache.evictableSize), old(cache.nodes),
        old(cache.view), allocator.freePages, last)
    {
      hide RadixCache.Valid, PagedTokenAllocator.Valid, RequestPool.Valid, Books, ReqsOk, RowsOk, ReadyToExtend,
           PrefixesOf, Distinct, Growing, TokensBefore, MadeRoom;
      batch, prefixes, extendNumTokens := BuildBatch(reqs);
      last := EvictIfShort(extendNumTokens);
    }

    /** The host side of `prepare_for_extend`: rows, batch metadata and room for the tokens. */
    method ReserveExtend(reqs: seq<Req>)
      returns (rows: Option<seq<nat>>, batch: seq<Extend>, prefixes: seq<seq<int>>, extendNumTokens: nat,
        ghost last: TreeNode?)
      requires Valid() && allocator.isNotInFreeGroup && ReadyToExtend(reqs)
      modifies Elements(reqs)`reqPoolIdx, pool`freeSlots
      modifies cache`nodes, cache`view, cache`evictableSize, cache.nodes`children, allocator
      ensures Parts() && Books(loans) && ReqsOk(loans) && RowsOk(loans, running) && allocator.isNotInFreeGroup
      ensures MadeRoom(extendNumTokens, old(allocator.freePages), old(cache.evictableSize), old(cache.nodes),
        old(cache.view), allocator.freePages, last)
      ensures rows.Some? <==> |reqs| <= |old(pool.freeSlots)|
      ensures rows.None? ==> batch == [] && extendNumTokens == 0 && pool.freeSlots == old(pool.freeSlots)
      ensures rows.Some? ==> RowsTaken(old(pool.freeSlots), reqs)
      ensures rows.Some? ==>
        && NewRows(reqs, rows.value) && BatchOf(reqs, batch) && extendNumTokens == TokensBefore(batch, |batch|)
        && PrefixesOf(reqs, batch, prefixes)
    {
      hide RadixCache.Valid, PagedTokenAllocator.Valid, RequestPool.Valid, Partition, HandlesCover, LaidOut, ReqsOk,
           RowsOk, Books, NewRows, RowsTaken, TokensBefore, BatchOf, PrefixesOf, ReadyToExtend, Distinct, Growing,
           Aligned, Elements, MadeRoom;
      batch, prefixes, extendNumTokens, last := [], [], 0, null;
      rows := AssignRows(reqs);
      if rows.Some? {
        batch, prefixes, extendNumTokens, last := PlanExtend(reqs, rows.value, old(pool.freeSlots));
      } else {
        NoRoomNeeded();
      }
    }

    /** `prepare_for_extend`: every request gets a row of the table and slots for the tokens
        past its prefix.  `free` is the free list once room was made, by freeing `last` and leaves
        before it; the slots are refused exactly when the rows or the pages of `free` run out.  Then
        nothing is taken from it, but when only the pages ran out the requests keep the rows they were
        given, although they do not run. */
    method PrepareForExtend(reqs: seq<Req>, allocOrder: seq<nat>, writeOrder: seq<nat>)
      returns (out: Option<seq<int>>, batch: seq<Extend>, ghost free: seq<int>, ghost last: TreeNode?)
      requires Valid() && allocator.isNotInFreeGroup && ReadyToExtend(reqs)
      requires IsOrder(allocOrder, |reqs|) && IsOrder(writeOrder, |reqs|)
      modifies this`loans, this`running, Elements(reqs)`reqPoolIdx, pool
      modifies cache`nodes, cache`view, cache`evictableSize, cache.nodes`children, allocator
      ensures Growing(batch) && MadeRoom(TokensBefore(batch, |batch|), old(allocator.freePages),
        old(cache.evictableSize), old(cache.nodes), old(cache.view), free, last)
      ensures |reqs| <= |old(pool.freeSlots)| ==>
        && |batch| == |reqs| && TakenFrom(batch, free, out, allocator.freePages)
        && forall i | 0 <= i < |reqs| ::
             batch[i].pre == |old(loans)[reqs[i]].path| && batch[i].len == |reqs[i].fillIds|
      ensures |reqs| > |old(pool.freeSlots)| ==> batch == [] && out.None? && allocator.freePages == free
      ensures out.None? ==> Valid() && loans == old(loans) && running == old(running)
      ensures out.None? ==>
        if |reqs| <= |old(pool.freeSlots)| then RowsTaken(old(pool.freeSlots), reqs)
            else pool.freeSlots == old(pool.freeSlots)
      ensures out.Some? ==> Valid() && running == old(running) + Elements(reqs)
      ensures out.Some? ==> ExtendedBy(old(loans), reqs, batch, out.value)
    {
      hide RadixCache.Valid, PagedTokenAllocator.Valid, RequestPool.Valid, Partition, HandlesCover, LaidOut, ReqsOk,
           RowsOk, Books, NewRows, RowsTaken, PrefixesOf, ExtendedBy, LoansAfter, TokensBefore, OpenedBefore,
           Segments, MadeRoom, TakenFrom;
      var rows, prefixes, extendNumTokens;
      rows, batch, prefixes, extendNumTokens, last := ReserveExtend(reqs);
      free := allocator.freePages;
      if rows.None? {
        EmptyBatch();
        return None, batch, free, last;
      }
      out := AllocateExtend(reqs, batch, extendNumTokens, allocOrder);
      if out.Some? {
        FinishExtend(reqs, rows.value, prefixes, batch, out.value, writeOrder);
      }
    }

    lemma EmptyBatch()
      ensures Growing([]) && TokensBefore([], 0) == 0
    {
    }

    // ---------- Decode ----------

    /** Different running requests whose rows have room for a token. */
    ghost predicate ReadyToDecode(reqs: seq<Req>)
      reads this, pool
    {
      && Distinct(reqs)
      && forall i | 0 <= i < |reqs| ::
           reqs[i] in running && reqs[i] in loans && 0 < |loans[reqs[i]].row| < pool.maxContextLen
    }

    /** Lengths that count the new token, and the slots of the last tokens so far. */
    method DecodeLengths(reqs: seq<Req>, rowLens: seq<nat>) returns (lens: seq<nat>, lasts: seq<int>)
      requires pool.Valid() && RowsOk(loans, running) && ReadyToDecode(reqs) && |rowLens| == |reqs|
      requires forall i | 0 <= i < |reqs| :: rowLens[i] == |loans[reqs[i]].row|
      ensures |lens| == |lasts| == |reqs|
      ensures forall i: nat | i < |reqs| :: RunsAt(loans, reqs[i], lens[i], lasts[i])
    {
      lens, lasts := [], [];
      for i := 0 to |reqs|
        invariant |lens| == |lasts| == i && forall k: nat | k < i :: RunsAt(loans, reqs[k], lens[k], lasts[k])
      {
        var r, n := reqs[i], rowLens[i];
        assert RowOk(r, loans[r]);
        assert pool.reqToToken[r.reqPoolIdx][..n][n - 1] == loans[r].row[n - 1];
        lens, lasts := lens + [n + 1], lasts + [pool.reqToToken[r.reqPoolIdx][n - 1]];
      }
    }

    /** The slots reach the rows at the new positions. */
    method WriteDecode(reqs: seq<Req>, rowLens: seq<nat>, out: seq<int>)
      requires pool.Valid() && RowsOk(loans, running) && ReadyToDecode(reqs) && |rowLens| == |out| == |reqs|
      requires forall i | 0 <= i < |reqs| :: rowLens[i] == |loans[reqs[i]].row|
      modifies pool`reqToToken
      ensures pool.Valid() && RowsOk(loans, running)
      ensures forall i: nat | i < |reqs| ::
          0 <= reqs[i].reqPoolIdx && RowHolds(reqs[i].reqPoolIdx, loans[reqs[i]].row, [out[i]])
    {
      hide RequestPool.Valid, Overlay;
      for i := 0 to |reqs|
        invariant pool.Valid() && RowsOk(loans, running)
        invariant forall k: nat | k < i ::
            0 <= reqs[k].reqPoolIdx && RowHolds(reqs[k].reqPoolIdx, loans[reqs[k]].row, [out[k]])
      {
        var r := reqs[i];
        assert RowOk(r, loans[r]);
        RowInTable(r.reqPoolIdx);
        label Before:
        pool.Write(r.reqPoolIdx, rowLens[i], [out[i]]);
        WrittenRow(old@Before(pool.reqToToken)[r.reqPoolIdx], loans[r].row, out[i]);
        forall q | q in running
          ensures RowOk(q, loans[q])
        {
          assert old@Before(RowOk(q, loans[q]));
        }
        forall k: nat | k < i
          ensures 0 <= reqs[k].reqPoolIdx && RowHolds(reqs[k].reqPoolIdx, loans[reqs[k]].row, [out[k]])
        {
          assert reqs[k] != r && reqs[k].reqPoolIdx != r.reqPoolIdx;
        }
      }
    }

    lemma RowInTable(index: nat)
      requires pool.Valid() && index < |pool.reqToToken|
      ensures index < pool.maxRequests && |pool.reqToToken[index]| == pool.maxContextLen
    {
    }

    lemma WrittenRow(before: seq<int>, row: seq<int>, slot: int)
      requires |row| < |before| && before[..|row|] == row
      ensures Overlay(before, |row|, [slot])[..|row| + 1] == row + [slot]
    {
    }

    /** A decode step under the contract of `alloc_decode`: every row grows by one slot, and the pages
        taken now belong to the grown loans.  `free` is the free list once room was made, by freeing
        `last` and leaves before it; the step is refused exactly when the rows open more pages than
        that, and then nothing changes but the eviction. */
    method GrowDecode(reqs: seq<Req>, rowLens: seq<nat>, order: seq<nat>)
      returns (out: Option<seq<int>>, ghost free: seq<int>, ghost last: TreeNode?)
      requires Valid() && allocator.isNotInFreeGroup && pageSize > 1 && ReadyToDecode(reqs) && IsOrder(order, |reqs|)
      requires |rowLens| == |reqs| && forall i | 0 <= i < |reqs| :: rowLens[i] == |loans[reqs[i]].row|
      modifies this`loans, this`running, pool`reqToToken
      modifies cache`nodes, cache`view, cache`evictableSize, cache.nodes`children, allocator
      ensures Valid() && running == old(running)
      ensures MadeRoom(|reqs|, old(allocator.freePages), old(cache.evictableSize), old(cache.nodes),
        old(cache.view), free, last)
      ensures out.None? <==> GrowthPages(rowLens, |reqs|, pageSize) > |free|
      ensures out.None? ==> loans == old(loans) && allocator.freePages == free
      ensures out.Some? ==>
        && allocator.freePages == free[GrowthPages(rowLens, |reqs|, pageSize)..]
        && NextSlots(old(loans), reqs, rowLens, free, out.value) && Grown(old(loans), reqs, out.value)
    {
      hide RadixCache.Valid, PagedTokenAllocator.Valid, RequestPool.Valid, Books, ReqOk, RowOk, LoansAfter, RowHolds,
           Grown, NextSlots, MadeRoom, GrowthPages;
      var lens, lasts := DecodeLengths(reqs, rowLens);
      last := EvictIfShort(|reqs|);
      free := allocator.freePages;
      out := AllocateDecode(reqs, rowLens, lens, lasts, order);
      if out.Some? {
        FinishDecode(reqs, rowLens, out.value);
      }
    }

    ghost predicate NextSlots(
      ls: map<Req, Loan>, reqs: seq<Req>, rowLens: seq<nat>, free: seq<int>, out: seq<int>)
    {
      pageSize > 0 && |rowLens| == |reqs| && forall i: nat | i < |reqs| :: NextSlot(ls, reqs[i], rowLens, i, free, out)
    }

    /** A row goes on inside its last page; a row that ends at a page boundary goes on in the page of the
        free list after those of the rows before it. */
    ghost predicate NextSlot(
      ls: map<Req, Loan>, r: Req, rowLens: seq<nat>, i: nat, free: seq<int>, out: seq<int>)
      requires pageSize > 0 && i < |rowLens|
    {
      var n, g := rowLens[i], GrowthPages(rowLens, i, pageSize);
      && i < |out| && r in ls && 0 < n == |ls[r].row|
      && if n % pageSize == 0 then g < |free| && out[i] == free[g] * pageSize else out[i] == ls[r].row[n - 1] + 1
    }

    /** The listed loans grew by one slot each. */
    ghost predicate Grown(before: map<Req, Loan>, reqs: seq<Req>, out: seq<int>)
      reads this`loans
    {
      && loans.Keys == before.Keys && |out| == |reqs| && (forall q | q in loans && q !in reqs :: loans[q] == before[q])
      && forall i: nat | i < |reqs| ::
           reqs[i] in before && loans[reqs[i]] == Loan(before[reqs[i]].path, before[reqs[i]].row + [out[i]])
    }

    method FinishDecode(reqs: seq<Req>, rowLens: seq<nat>, out: seq<int>)
      requires Parts() && ReqsOk(loans) && RowsOk(loans, running) && running <= loans.Keys && ReadyToDecode(reqs)
      requires |rowLens| == |out| == |reqs| && forall i | 0 <= i < |reqs| :: rowLens[i] == |loans[reqs[i]].row|
      requires Books(LoansAfter(loans, reqs, Singles(out), |reqs|))
      modifies this`loans, this`running, pool`reqToToken
      ensures Valid() && running == old(running) && Grown(old(loans), reqs, out)
    {
      hide RadixCache.Valid, PagedTokenAllocator.Valid, RequestPool.Valid, Books, ReqOk, RowOk, LoansAfter, RowHolds,
           Singles;
      ghost var slots, before := Singles(out), loans;
      WriteDecode(reqs, rowLens, out);
      ExtensionKeepsReqs(reqs, slots);
      GrownRowsOk(reqs, out);
      Record(LoansAfter(loans, reqs, slots, |reqs|), running);
      forall q | q in before
        ensures q !in reqs ==> loans[q] == before[q]
        ensures forall i: nat | i < |reqs| && reqs[i] == q :: loans[q] == Loan(before[q].path, before[q].row + [out[i]])
      {
        ExtendedLoan(before, reqs, slots, q);
      }
    }

    method AllocateDecode(reqs: seq<Req>, rowLens: seq<nat>, lens: seq<nat>, lasts: seq<int>, order: seq<nat>)
      returns (out: Option<seq<int>>)
      requires Parts() && Books(loans) && Distinct(reqs) && allocator.isNotInFreeGroup && pageSize > 1
      requires |rowLens| == |lens| == |lasts| == |reqs| && IsOrder(order, |reqs|)
      requires forall i: nat | i < |reqs| :: RunsAt(loans, reqs[i], lens[i], lasts[i])
      requires forall i: nat | i < |reqs| :: lens[i] == rowLens[i] + 1 > 1
      modifies allocator
      ensures Parts() && (out.None? ==> Books(loans)) && (forall i | 0 <= i < |reqs| :: reqs[i] in loans)
      ensures out.None? <==> GrowthPages(rowLens, |reqs|, pageSize) > |old(allocator.freePages)|
      ensures out.None? ==> allocator.freePages == old(allocator.freePages)
      ensures out.Some? ==>
        && allocator.freePages == old(allocator.freePages)[GrowthPages(rowLens, |reqs|, pageSize)..]
        && NextSlots(loans, reqs, rowLens, old(allocator.freePages), out.value)
      ensures out.Some? ==> |out.value| == |reqs| && Books(LoansAfter(loans, reqs, Singles(out.value), |reqs|))
    {
      hide RadixCache.Valid, Partition, HandlesCover, AllLaidOut, RequestPool.Valid, LoansAfter, GrowsRunning,
           OpenedBefore, TokensBefore, ExtendBatch, SlotsOf, DecodeBatch, Singles, GrowthPages, NextSlots;
      SettledOutsideGroup();
      ghost var free := allocator.freePages;
      assert forall i: nat | i < |reqs| :: RunsAt(loans, reqs[i], lens[i], lasts[i]);
      GrowthIsOpened(rowLens, lens, lasts, |reqs|, pageSize);
      out := allocator.AllocDecode(lens, lasts, order);
      SettledOutsideGroup();
      if out.Some? {
        SlotsAreNext(reqs, rowLens, lens, lasts, free, out.value);
        ghost var slots := Singles(out.value);
        DecodeGrows(loans, reqs, lens, lasts, out.value, free, pageSize);
        DecodeKeepsPartition(free, cache.view, loans, reqs, lens, lasts, slots, |reqs|, pageSize, allocator.numPages);
        ExtendBatchKeepsCover(loans, reqs, slots, |reqs|, cache.handles);
      }
    }

    lemma SlotIsNext(reqs: seq<Req>, rowLens: seq<nat>, lens: seq<nat>, lasts: seq<int>, i: nat, free: seq<int>,
        out: seq<int>)
      requires pageSize > 0 && |rowLens| == |lens| == |lasts| == |reqs| && i < |reqs|
      requires RunsAt(loans, reqs[i], lens[i], lasts[i])
      requires forall j: nat | j < |reqs| :: lens[j] == rowLens[j] + 1 > 1
      requires Growing(DecodeBatch(lens, lasts)) && GrowthPages(rowLens, |reqs|, pageSize) <= |free|
      requires OpenedBefore(DecodeBatch(lens, lasts), |lens|, pageSize) <= |free|
      requires out == ExtendBatch(DecodeBatch(lens, lasts), |lens|, free, pageSize)
      ensures NextSlot(loans, reqs[i], rowLens, i, free, out)
    {
      hide OpenedBefore, ExtendBatch, DecodeBatch, GrowthPages, TokensBefore, Growing;
      DecodeSlot(rowLens, lens, lasts, i, free, pageSize);
    }

    lemma SlotsAreNext(reqs: seq<Req>, rowLens: seq<nat>, lens: seq<nat>, lasts: seq<int>, free: seq<int>,
        out: seq<int>)
      requires pageSize > 0 && |rowLens| == |lens| == |lasts| == |reqs|
      requires forall i: nat | i < |reqs| :: RunsAt(loans, reqs[i], lens[i], lasts[i])
      requires forall i: nat | i < |reqs| :: lens[i] == rowLens[i] + 1 > 1
      requires Growing(DecodeBatch(lens, lasts)) && GrowthPages(rowLens, |reqs|, pageSize) <= |free|
      requires OpenedBefore(DecodeBatch(lens, lasts), |lens|, pageSize) <= |free|
      requires out == ExtendBatch(DecodeBatch(lens, lasts), |lens|, free, pageSize)
      ensures NextSlots(loans, reqs, rowLens, free, out)
    {
      hide OpenedBefore, ExtendBatch, DecodeBatch, GrowthPages, TokensBefore, NextSlot, RunsAt, Growing;
      forall i: nat | i < |reqs|
        ensures NextSlot(loans, reqs[i], rowLens, i, free, out)
      {
        SlotIsNext(reqs, rowLens, lens, lasts, i, free, out);
      }
    }

    lemma GrownRowsOk(reqs: seq<Req>, out: seq<int>)
      requires RowsOk(loans, running) && running <= loans.Keys && ReadyToDecode(reqs) && |out| == |reqs|
      requires forall i: nat | i < |reqs| ::
          0 <= reqs[i].reqPoolIdx && RowHolds(reqs[i].reqPoolIdx, loans[reqs[i]].row, [out[i]])
      ensures RowsOk(LoansAfter(loans, reqs, Singles(out), |reqs|), running)
    {
      hide LoansAfter, Singles;
      var after := LoansAfter(loans, reqs, Singles(out), |reqs|);
      forall q | q in after
        ensures q in running ==> RowOk(q, after[q])
        ensures q !in running ==> |after[q].row| == |after[q].path|
      {
        ExtendedLoan(loans, reqs, Singles(out), q);
        if i: nat :| i < |reqs| && reqs[i] == q {
          GrownRowOk(reqs, out, i);
        } else if q in running {
          assert RowOk(q, loans[q]);
        }
      }
    }

    lemma GrownRowOk(reqs: seq<Req>, out: seq<int>, i: nat)
      requires RowsOk(loans, running) && ReadyToDecode(reqs) && i < |out| == |reqs| && 0 <= reqs[i].reqPoolIdx
      requires RowHolds(reqs[i].reqPoolIdx, loans[reqs[i]].row, [out[i]])
      ensures RowOk(reqs[i], Loan(loans[reqs[i]].path, loans[reqs[i]].row + [out[i]]))
    {
      assert RowOk(reqs[i], loans[reqs[i]]);
    }
  }

  /** One-slot segments of a decode output. */
  function Singles(out: seq<int>): (r: seq<seq<int>>)
    ensures |r| == |out| && forall i | 0 <= i < |out| :: r[i] == [out[i]]
  {
    if out == [] then [] else Singles(out[..|out| - 1]) + [[out[|out| - 1]]]
  }

  lemma DecodeGrows<K>(loans: map<K, Loan>, reqs: seq<K>, lens: seq<nat>, lasts: seq<int>, out: seq<int>,
      free: seq<int>, ps: nat)
    requires ps > 0 && Distinct(reqs) && |lens| == |lasts| == |reqs| && (forall i | 0 <= i < |lens| :: lens[i] >= 1)
    requires Growing(DecodeBatch(lens, lasts)) && OpenedBefore(DecodeBatch(lens, lasts), |lens|, ps) <= |free|
    requires forall i: nat | i < |reqs| :: RunsAt(loans, reqs[i], lens[i], lasts[i])
    requires out == ExtendBatch(DecodeBatch(lens, lasts), |lens|, free, ps)
    ensures |out| == |reqs| && GrowsRunning(loans, reqs, lens, lasts, Singles(out), free, ps)
  {
    hide SlotsOf, OpenedBefore, ExtendBatch, Distinct, Singles;
    var batch := DecodeBatch(lens, lasts);
    DecodeTokens(lens, lasts, |lens|);
    forall i: nat | i < |reqs|
      ensures OpenedBefore(batch, i + 1, ps) <= |free| && Singles(out)[i] == SlotsOf(batch, i, free, ps)
    {
      SegmentOfBatch(batch, i, |batch|, free, ps);
      DecodeTokens(lens, lasts, i);
      DecodeTokens(lens, lasts, i + 1);
      assert out[i..i + 1] == [out[i]];
    }
  }

  lemma BatchGrowsLoans<K>(loans: map<K, Loan>, reqs: seq<K>, batch: seq<Extend>, out: seq<int>, free: seq<int>,
      ps: nat)
    requires ps > 0 && |batch| == |reqs| && Distinct(reqs) && Growing(batch)
    requires OpenedBefore(batch, |batch|, ps) <= |free|
    requires forall i | 0 <= i < |reqs| ::
        reqs[i] in loans && |loans[reqs[i]].row| == |loans[reqs[i]].path| == batch[i].pre
    requires out == ExtendBatch(batch, |batch|, free, ps)
    ensures GrowsLoans(loans, reqs, batch, Segments(batch, out, |batch|), free, ps)
  {
    hide TokensBefore, ExtendBatch, Distinct, Growing;
    var slots := Segments(batch, out, |batch|);
    forall i: nat | i < |reqs|
      ensures OpenedBefore(batch, i + 1, ps) <= |free| && slots[i] == SlotsOf(batch, i, free, ps)
    {
      SegmentOfBatch(batch, i, |batch|, free, ps);
      assert slots[i] == Segment(batch, i, out);
    }
  }

  /** Among multiples of the page size, falling short of the rounded need is falling short of it. */
  lemma BelowRoundUp(now: nat, was: nat, key: nat, n: nat, ps: nat)
    requires ps > 0 && was * ps < n && Aligned(key, ps)
    requires now * ps - was * ps - key < CeilDiv(n - was * ps, ps) * ps
    ensures now * ps - key < n
  {
    AlignedMod(key, ps);
    var m, c := now - was - key / ps, CeilDiv(n - was * ps, ps);
    assert m * ps == now * ps - was * ps - key;
    CeilDivBounds(n - was * ps, ps);
    assert (m - c) * ps == m * ps - c * ps;
    MulAtLeast(m - c, ps);
    assert m - c <= -1;
  }

  lemma MulCancel(a: nat, b: nat, ps: nat)
    requires ps > 0 && a * ps <= b * ps
    ensures a <= b
  {
    if b < a {
      MulMonotone(b + 1, a, ps);
    }
  }

  lemma DistinctSplit(s: seq<nat>, n: nat)
    requires Distinct(s) && n <= |s|
    ensures Distinct(s[..n]) && forall i | 0 <= i < n :: s[i] in s && s[i] !in s[n..]
  {
  }

  lemma TokensBeforeSnoc(batch: seq<Extend>, e: Extend)
    requires Growing(batch) && e.pre <= e.len
    ensures Growing(batch + [e])
    ensures TokensBefore(batch + [e], |batch| + 1) == TokensBefore(batch, |batch|) + e.len - e.pre
  {
    TokensBeforePrefix(batch, e, |batch|);
  }

  lemma {:induction false} TokensBeforePrefix(batch: seq<Extend>, e: Extend, k: nat)
    requires Growing(batch) && e.pre <= e.len && k <= |batch|
    ensures Growing(batch + [e]) && TokensBefore(batch + [e], k) == TokensBefore(batch, k)
  {
    if k > 0 {
      TokensBeforePrefix(batch, e, k - 1);
    }
  }

  lemma NothingLaidOut<K>(v: View, loans: map<K, Loan>, ps: nat)
    requires ps > 0 && v == map[[] := []] && loans == map[]
    ensures AllLaidOut(v, loans, ps)
  {
  }

  lemma PartitionFacts<K>(free: set<int>, v: View, loans: map<K, Loan>, ps: nat, numPages: nat)
    requires ps > 0 && Partition(free, v, loans, ps, numPages)
    ensures OwnsPages(v, ps, numPages) && free !! StoredPages(v, ps) && forall r | r in loans :: LoanOk(loans[r], v, ps)
  {
  }

  /** How a release changes the free pages and the cached prefixes. */
  ghost predicate Released(free: set<int>, v: View, l: Loan, tokenIds: seq<Token>, isInsert: bool, m: nat,
                           free': set<int>, v': View, ps: nat)
    requires ps > 0 && |tokenIds| == |l.row|
  {
    if isInsert then
      var key := tokenIds[..AlignLen(|tokenIds|, ps)];
      && IsMatchLen(v, key, ps, m) && |l.path| <= m && |v[key[..m]]| == m
      && free' == free + GivenBack(l, m, |key|, ps)
      && v' == AddPages(v, key, v[key[..m]] + l.row[m..|key|], m, ps)
    else
      free' == free + Owned(l, ps) && v' == v
  }

  lemma ReleasedKeepsPartition<K>(free: set<int>, v: View, loans: map<K, Loan>, r: K, tokenIds: seq<Token>, m: nat,
      ps: nat, numPages: nat)
    requires ps > 0 && Partition(free, v, loans, ps, numPages) && r in loans
    requires |tokenIds| == |loans[r].row| && loans[r].path <= tokenIds
    requires IsMatchLen(v, tokenIds[..AlignLen(|tokenIds|, ps)], ps, m)
    requires |v[tokenIds[..AlignLen(|tokenIds|, ps)][..m]]| == m
    ensures |loans[r].path| <= m
    ensures var key := tokenIds[..AlignLen(|tokenIds|, ps)];
      Partition(free + GivenBack(loans[r], m, |key|, ps), AddPages(v, key, v[key[..m]] + loans[r].row[m..|key|], m, ps),
                loans - {r}, ps, numPages)
  {
    hide OwnsPages, PagedRow, StoredPages, AddPages, RowPages;
    var key := tokenIds[..AlignLen(|tokenIds|, ps)];
    assert LoanOk(loans[r], v, ps);
    AlignLenAtLeast(|loans[r].path|, |tokenIds|, ps);
    assert loans[r].path <= key;
    LockedPrefixIsMatched(loans[r], v, key, m, ps);
    ReleaseKeepsPartition(free, v, loans, r, key, m, ps, numPages);
  }

  /** Parts of a stretch with real pages have real pages. */
  lemma RowInPieces(row: seq<int>, from: nat, m: nat, aligned: nat, ps: nat, numPages: nat)
    requires ps > 0 && from <= m <= aligned <= |row| && RealPages(RowPages(row, from, |row|, ps), numPages)
    ensures RealPages(RowPages(row, from, m, ps), numPages) && RealPages(RowPages(row, aligned, |row|, ps), numPages)
    ensures m == from ==> RowPages(row, from, m, ps) == {}
    ensures aligned == |row| ==> RowPages(row, aligned, |row|, ps) == {}
  {
    RowPagesSplit(row, from, m, |row|, ps);
    RowPagesSplit(row, from, aligned, |row|, ps);
  }

  /** What the books say about one loan. */
  lemma LoanFacts<K>(free: set<int>, v: View, loans: map<K, Loan>, r: K, ps: nat, numPages: nat)
    requires ps > 0 && Partition(free, v, loans, ps, numPages) && r in loans
    ensures |loans[r].path| <= |loans[r].row| && Aligned(|loans[r].path|, ps) && loans[r].path in v
    ensures RealPages(RowPages(loans[r].row, |loans[r].path|, |loans[r].row|, ps), numPages)
  {
    forall page | page in Owned(loans[r], ps)
      ensures 1 <= page <= numPages
    {
      assert Held(free, v, loans, ps, page);
    }
  }

  function AllButLast(ids: seq<Token>): seq<Token> {
    ids[..if |ids| == 0 then 0 else |ids| - 1]
  }

  /** `path` is the longest stored page-aligned prefix of `tokenIds`, `slots` are its slots. */
  ghost predicate LongestPrefix(v: View, tokenIds: seq<Token>, ps: nat, path: seq<Token>, slots: seq<int>)
    requires ps > 0
  {
    && path in v && v[path] == slots && |path| == |slots| <= |tokenIds| && path == tokenIds[..|path|]
    && IsMatchLen(v, tokenIds[..AlignLen(|tokenIds|, ps)], ps, |path|)
  }

  lemma LongestPrefixFacts(v: View, tokenIds: seq<Token>, ps: nat, path: seq<Token>, slots: seq<int>)
    requires ps > 0 && LongestPrefix(v, tokenIds, ps, path, slots)
    ensures path in v && v[path] == slots && |path| == |slots| && path <= tokenIds
  {
  }
}
