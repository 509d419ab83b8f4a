/** The running decode batch of the scheduler: a list of requests and parallel metadata tensors, kept
    aligned while requests finish, join, and are retracted for lack of KV memory. */
module DecodeBatches {
  import opened Wrappers
  import opened Orders
  import opened PagedMemory

  class Req {
    var reqPoolIdx: int
    var finished: bool
    var isChunked: bool
    var isRetracted: bool
    var everRetracted: bool
    var outputIds: seq<int>
    var originLen: nat
    var currentSeqLen: nat
    var cacheProtectedLen: nat
    var extendInputLen: nat

    constructor (originLen: nat)
      ensures this.originLen == originLen && currentSeqLen == originLen && reqPoolIdx == -1 && !finished
      ensures outputIds == []
      ensures !isChunked && !isRetracted && !everRetracted && cacheProtectedLen == 0 && extendInputLen == 0
    {
      this.originLen, currentSeqLen, reqPoolIdx := originLen, originLen, -1;
      finished, isChunked, isRetracted, everRetracted, outputIds := false, false, false, false, [];
      cacheProtectedLen, extendInputLen := 0, 0;
    }
  }

  // ---- Selecting entries ---------------------------------------------------------------------

  function Select<T>(s: seq<T>, keep: seq<nat>): (r: seq<T>)
    requires forall k | 0 <= k < |keep| :: keep[k] < |s|
    ensures |r| == |keep| && forall k | 0 <= k < |keep| :: r[k] == s[keep[k]]
  {
    if keep == [] then [] else Select(s, keep[..|keep| - 1]) + [s[keep[|keep| - 1]]]
  }

  /** Positions below `n` of requests that pass, ascending. */
  function Kept(pass: seq<bool>, n: nat): (r: seq<nat>)
    requires n <= |pass|
    ensures forall k | 0 <= k < |r| :: r[k] < n && pass[r[k]]
    ensures forall j, k | 0 <= j < k < |r| :: r[j] < r[k]
    ensures forall i: nat | i < n && pass[i] :: i in r
  {
    if n == 0 then [] else if pass[n - 1] then Kept(pass, n - 1) + [n - 1] else Kept(pass, n - 1)
  }

  ghost function Flags(reqs: seq<Req>): (r: seq<bool>)
    reads reqs
    ensures |r| == |reqs| && forall i | 0 <= i < |reqs| :: r[i] == !reqs[i].finished
  {
    if reqs == [] then [] else Flags(reqs[..|reqs| - 1]) + [!reqs[|reqs| - 1].finished]
  }

  /** Request `r` holds entry `v` of a metadata tensor. */
  ghost predicate Holds<T>(reqs: seq<Req>, entries: seq<T>, r: Req, v: T) {
    exists i: nat :: i < |reqs| && i < |entries| && reqs[i] == r && entries[i] == v
  }

  /** Every surviving request holds exactly what it held. */
  ghost predicate SameEntries<T(!new)>(was: seq<Req>, old': seq<T>, now: seq<Req>, new': seq<T>) {
    |new'| == |now| && forall r: Req, v: T | r in now :: Holds(now, new', r, v) <==> Holds(was, old', r, v)
  }

  /** Every request of the joined batch holds exactly what it held in the batch it comes from. */
  ghost predicate JoinedEntries<T(!new)>(
    was: seq<Req>, old': seq<T>, ext: seq<Req>, ext': seq<T>, now: seq<Req>, new': seq<T>)
  {
    && |new'| == |now|
    && forall r: Req, v: T | r in now :: Holds(now, new', r, v) <==> Holds(was, old', r, v) || Holds(ext, ext', r, v)
  }

  /** A column's entries; none if there is no such column. */
  function Entries<T>(column: Option<seq<T>>): seq<T> {
    if column.Some? then column.value else []
  }

  predicate InRange(keep: seq<nat>, n: nat) {
    forall k | 0 <= k < |keep| :: keep[k] < n
  }

  /** A column of the batch at the kept positions, if there is such a column. */
  function Picked<T>(column: Option<seq<T>>, keep: seq<nat>): Option<seq<T>>
    requires column.Some? ==> InRange(keep, |column.value|)
  {
    if column.Some? then Some(Select(column.value, keep)) else None
  }

  lemma SelectSame<T(!new)>(reqs: seq<Req>, entries: seq<T>, keep: seq<nat>)
    requires Distinct(reqs) && |entries| == |reqs|
    requires forall k | 0 <= k < |keep| :: keep[k] < |reqs|
    ensures SameEntries(reqs, entries, Select(reqs, keep), Select(entries, keep))
  {
    var now, new' := Select(reqs, keep), Select(entries, keep);
    forall r: Req, v: T | r in now
      ensures Holds(now, new', r, v) <==> Holds(reqs, entries, r, v)
    {
      if Holds(now, new', r, v) {
        var k: nat :| k < |now| && k < |new'| && now[k] == r && new'[k] == v;
        assert reqs[keep[k]] == r && entries[keep[k]] == v;
      }
      if Holds(reqs, entries, r, v) {
        var i: nat :| i < |reqs| && i < |entries| && reqs[i] == r && entries[i] == v;
        var k: nat :| k < |now| && now[k] == r;
        assert reqs[keep[k]] == reqs[i];
        SamePosition(reqs, keep[k], i);
        assert now[k] == r && new'[k] == v;
      }
    }
  }

  lemma SamePosition(reqs: seq<Req>, i: nat, j: nat)
    requires Distinct(reqs) && i < |reqs| && j < |reqs| && reqs[i] == reqs[j]
    ensures i == j
  {
  }

  // ---- The running batch ---------------------------------------------------------------------

  class RunningBatch {
    var reqs: seq<Req>
    var reqPoolIndices: Option<seq<int>>
    var seqLens: Option<seq<nat>>
    var seqLensCpu: Option<seq<nat>>
    var outputIds: Option<seq<int>>

    /** Entry `i` of every tensor is request `i`'s. */
    ghost predicate Rows()
      reads this, reqs
    {
      && Distinct(reqs)
      && (reqPoolIndices.Some? <==> reqs != []) && (seqLens.Some? <==> reqs != [])
      && (reqPoolIndices.Some? ==> |reqPoolIndices.value| == |reqs| && IndicesOf(reqs, reqPoolIndices.value))
      && (seqLens.Some? ==> |seqLens.value| == |reqs|)
      && (seqLensCpu.Some? ==> reqs != [] && |seqLensCpu.value| == |reqs|)
    }

    /** One placeholder per request, or none at all; between a join and the next launch the joined
        requests have none yet. */
    predicate Placeholders()
      reads this
    {
      outputIds.Some? ==> |outputIds.value| == |reqs|
    }

    constructor ()
      ensures Rows() && Placeholders() && reqs == [] && outputIds == None
    {
      reqs, reqPoolIndices, seqLens, seqLensCpu, outputIds := [], None, None, None, None;
    }

    /** `_filter_batch`: finished requests leave, all others keep order and entries. */
    method Filter()
      requires Rows() && Placeholders()
      modifies this
      ensures Rows() && Placeholders()
      ensures reqs == Select(old(reqs), Kept(Flags(old(reqs)), |old(reqs)|))
      ensures seqLens.Some? ==> SameEntries(old(reqs), old(seqLens).value, reqs, seqLens.value)
      ensures seqLensCpu.Some? ==>
          old(seqLensCpu).Some? && SameEntries(old(reqs), old(seqLensCpu).value, reqs, seqLensCpu.value)
      ensures outputIds.Some? ==>
          old(outputIds).Some? && SameEntries(old(reqs), old(outputIds).value, reqs, outputIds.value)
      ensures outputIds.None? ==> old(outputIds).None? || reqs == []
    {
      hide Select, Kept, Flags, Complete, SameEntries, Distinct, IndicesOf;
      if reqs == [] {
        NothingKept(reqs, if outputIds.Some? then outputIds.value else []);
        return;
      }
      var keep, kept := KeptRequests(reqs);
      KeptFacts(reqs, keep);
      SelectAll(reqs, keep, reqPoolIndices, seqLens, seqLensCpu, outputIds);
      var originalLen := |reqs|;
      reqs := kept;
      if |keep| == originalLen {
        return;
      }
      KeepEntries(keep);
    }

    /** The entries of the kept positions. */
    method KeepEntries(keep: seq<nat>)
      requires reqPoolIndices.Some? ==> seqLens.Some? && InRange(keep, |reqPoolIndices.value|)
      requires seqLens.Some? ==> InRange(keep, |seqLens.value|)
      requires seqLensCpu.Some? ==> InRange(keep, |seqLensCpu.value|)
      requires outputIds.Some? ==> InRange(keep, |outputIds.value|)
      modifies this`reqPoolIndices, this`seqLens, this`seqLensCpu, this`outputIds
      ensures keep == [] ==> reqPoolIndices == None && seqLens == None && seqLensCpu == None && outputIds == None
      ensures keep != [] && old(reqPoolIndices).Some? ==>
        && reqPoolIndices == Picked(old(reqPoolIndices), keep) && seqLens == Picked(old(seqLens), keep)
        && seqLensCpu == Picked(old(seqLensCpu), keep) && outputIds == Picked(old(outputIds), keep)
      ensures keep != [] && old(reqPoolIndices).None? ==>
        && reqPoolIndices == None && seqLens == old(seqLens) && seqLensCpu == old(seqLensCpu)
        && outputIds == old(outputIds)
    {
      hide Select;
      if |keep| > 0 && reqPoolIndices.Some? {
        reqPoolIndices := Some(Select(reqPoolIndices.value, keep));
        seqLens := Some(Select(seqLens.value, keep));
        if seqLensCpu.Some? {
          seqLensCpu := Some(Select(seqLensCpu.value, keep));
        }
        if outputIds.Some? {
          outputIds := Some(Select(outputIds.value, keep));
        }
      } else if |keep| == 0 {
        reqPoolIndices, seqLens, seqLensCpu, outputIds := None, None, None, None;
      }
    }

    /** `_append_running_batch_metadata` after the requests that finished prefill joined. */
    method Join(extReqs: seq<Req>, extIndices: seq<int>, extLens: seq<nat>, extLensCpu: seq<nat>)
      requires Rows() && Placeholders() && Distinct(reqs + extReqs)
      requires |extReqs| == |extIndices| == |extLens| == |extLensCpu| && IndicesOf(extReqs, extIndices)
      modifies this
      ensures Rows()
      ensures reqs == old(reqs) + Select(extReqs, Kept(Complete(extReqs), |extReqs|))
      ensures seqLens.Some? ==>
          JoinedEntries(old(reqs), Entries(old(seqLens)), extReqs, extLens, reqs, seqLens.value)
      ensures seqLensCpu.Some? ==>
          JoinedEntries(old(reqs), Entries(old(seqLensCpu)), extReqs, extLensCpu, reqs, seqLensCpu.value)
      ensures reqs != [] && (old(reqs) == [] || old(seqLensCpu).Some?) ==> seqLensCpu.Some?
      ensures outputIds == if old(reqs) == [] && reqs != [] then None else old(outputIds)
    {
      hide Select, Kept, Flags, Complete, SameEntries, JoinedEntries, Distinct, IndicesOf;
      var ready := ReadyRequests(extReqs);
      JoinedDistinct(reqs, extReqs, ready);
      JoinedHold(reqs, Entries(seqLens), extReqs, extLens, ready);
      if seqLensCpu.Some? || reqs == [] {
        JoinedHold(reqs, Entries(seqLensCpu), extReqs, extLensCpu, ready);
      }
      JoinedIndices(reqs, if reqPoolIndices.Some? then reqPoolIndices.value else [], extReqs, extIndices, ready);
      reqs := reqs + Select(extReqs, ready);
      if ready == [] {
        assert reqs == old(reqs);
        return;
      }
      var indices, lens, lensCpu := Select(extIndices, ready), Select(extLens, ready), Select(extLensCpu, ready);
      if reqPoolIndices.None? || reqs == [] {
        reqPoolIndices, seqLens, seqLensCpu, outputIds := Some(indices), Some(lens), Some(lensCpu), None;
        assert old(reqs) + Select(extReqs, ready) == Select(extReqs, ready);
      } else {
        reqPoolIndices := Some(reqPoolIndices.value + indices);
        seqLens := Some(seqLens.value + lens);
        if seqLensCpu.Some? {
          seqLensCpu := Some(seqLensCpu.value + lensCpu);
        }
      }
    }

    /** `_rebuild_running_batch_metadata`. */
    method Rebuild()
      requires Distinct(reqs) && (outputIds.Some? ==> |reqs| <= |outputIds.value|)
      modifies this
      ensures reqs == old(reqs) && Rows() && Placeholders()
      ensures seqLensCpu == seqLens
      ensures reqs != [] ==> seqLens.Some? && forall i | 0 <= i < |reqs| :: seqLens.value[i] == reqs[i].currentSeqLen
      ensures outputIds == if reqs == [] || old(outputIds).None? then None else Some(old(outputIds).value[..|reqs|])
    {
      if reqs == [] {
        reqPoolIndices, seqLens, seqLensCpu, outputIds := None, None, None, None;
        return;
      }
      var indices: seq<int>, lens: seq<nat> := [], [];
      for i := 0 to |reqs|
        invariant unchanged(this) && |indices| == |lens| == i
        invariant forall k | 0 <= k < i :: indices[k] == reqs[k].reqPoolIdx && lens[k] == reqs[k].currentSeqLen
      {
        indices, lens := indices + [reqs[i].reqPoolIdx], lens + [reqs[i].currentSeqLen];
      }
      reqPoolIndices, seqLens, seqLensCpu := Some(indices), Some(lens), Some(lens);
      if outputIds.Some? {
        outputIds := Some(outputIds.value[..|reqs|]);
      }
    }
  }

  ghost predicate IndicesOf(reqs: seq<Req>, indices: seq<int>)
    reads reqs
  {
    |indices| == |reqs| && forall i | 0 <= i < |reqs| :: indices[i] == reqs[i].reqPoolIdx
  }

  ghost function Complete(reqs: seq<Req>): (r: seq<bool>)
    reads reqs
    ensures |r| == |reqs| && forall i | 0 <= i < |reqs| :: r[i] == !reqs[i].isChunked
  {
    if reqs == [] then [] else Complete(reqs[..|reqs| - 1]) + [!reqs[|reqs| - 1].isChunked]
  }

  /** The loop of `_filter_batch`. */
  method KeptRequests(reqs: seq<Req>) returns (keep: seq<nat>, kept: seq<Req>)
    ensures keep == Kept(Flags(reqs), |reqs|) && kept == Select(reqs, keep)
  {
    hide Flags, Kept, Select;
    keep, kept := [], [];
    SelectNone(reqs, Flags(reqs));
    for i := 0 to |reqs|
      invariant keep == Kept(Flags(reqs), i) && kept == Select(reqs, keep)
    {
      KeptStep(Flags(reqs), i);
      SelectAppend(reqs, keep, i);
      if !reqs[i].finished {
        keep := keep + [i];
        kept := kept + [reqs[i]];
      }
    }
  }

  lemma SelectNone<T>(s: seq<T>, pass: seq<bool>)
    ensures Kept(pass, 0) == [] && Select(s, []) == []
  {
  }

  lemma KeptStep(pass: seq<bool>, i: nat)
    requires i < |pass|
    ensures Kept(pass, i + 1) == if pass[i] then Kept(pass, i) + [i] else Kept(pass, i)
  {
  }

  lemma SelectAppend<T>(s: seq<T>, keep: seq<nat>, i: nat)
    requires i < |s| && forall k | 0 <= k < |keep| :: keep[k] < |s|
    ensures Select(s, keep + [i]) == Select(s, keep) + [s[i]]
  {
    assert (keep + [i])[..|keep|] == keep;
  }

  /** The positions of requests that are done with their prefill. */
  method ReadyRequests(reqs: seq<Req>) returns (ready: seq<nat>)
    ensures ready == Kept(Complete(reqs), |reqs|)
  {
    ready := [];
    for i := 0 to |reqs|
      invariant ready == Kept(Complete(reqs), i)
    {
      if !reqs[i].isChunked {
        ready := ready + [i];
      }
    }
  }

  lemma NothingKept(reqs: seq<Req>, ids: seq<int>)
    requires reqs == [] && ids == []
    ensures Select(reqs, Kept(Flags(reqs), 0)) == [] && SameEntries(reqs, ids, reqs, ids)
  {
  }

  lemma KeptFacts(reqs: seq<Req>, keep: seq<nat>)
    requires Distinct(reqs) && keep == Kept(Flags(reqs), |reqs|)
    ensures Distinct(Select(reqs, keep)) && |keep| <= |reqs|
    ensures |keep| == |reqs| ==> SelectsAll(reqs, keep)
  {
    KeptDistinct(reqs, keep);
    KeptFew(Flags(reqs), |reqs|);
  }

  /** Keeping every position keeps every tensor. */
  ghost predicate SelectsAll(reqs: seq<Req>, keep: seq<nat>) {
    |keep| == |reqs| && forall k | 0 <= k < |keep| :: keep[k] == k
  }

  lemma KeptDistinct(reqs: seq<Req>, keep: seq<nat>)
    requires Distinct(reqs) && (forall k | 0 <= k < |keep| :: keep[k] < |reqs|)
    requires forall j, k | 0 <= j < k < |keep| :: keep[j] < keep[k]
    ensures Distinct(Select(reqs, keep))
  {
  }

  lemma {:induction false} KeptFew(pass: seq<bool>, n: nat)
    requires n <= |pass|
    ensures |Kept(pass, n)| <= n
    ensures |Kept(pass, n)| == n ==> forall k | 0 <= k < n :: Kept(pass, n)[k] == k
  {
    if n > 0 {
      KeptFew(pass, n - 1);
    }
  }

  lemma SelectAll(
    was: seq<Req>, keep: seq<nat>, indices: Option<seq<int>>, lens: Option<seq<nat>>, lensCpu: Option<seq<nat>>,
        ids: Option<seq<int>>)
    requires Distinct(was) && (forall k | 0 <= k < |keep| :: keep[k] < |was|)
    requires indices.Some? ==> IndicesOf(was, indices.value)
    requires lens.Some? ==> |lens.value| == |was|
    requires lensCpu.Some? ==> |lensCpu.value| == |was|
    requires ids.Some? ==> |ids.value| == |was|
    ensures indices.Some? ==> IndicesOf(Select(was, keep), Select(indices.value, keep))
    ensures lens.Some? ==> SameEntries(was, lens.value, Select(was, keep), Select(lens.value, keep))
    ensures lensCpu.Some? ==> SameEntries(was, lensCpu.value, Select(was, keep), Select(lensCpu.value, keep))
    ensures ids.Some? ==> SameEntries(was, ids.value, Select(was, keep), Select(ids.value, keep))
    ensures SelectsAll(was, keep) ==>
              && Select(was, keep) == was && (lens.Some? ==> Select(lens.value, keep) == lens.value)
              && (lensCpu.Some? ==> Select(lensCpu.value, keep) == lensCpu.value)
              && (ids.Some? ==> Select(ids.value, keep) == ids.value)
  {
    if lens.Some? {
      SelectSame(was, lens.value, keep);
    }
    if lensCpu.Some? {
      SelectSame(was, lensCpu.value, keep);
    }
    if ids.Some? {
      SelectSame(was, ids.value, keep);
    }
  }

  lemma JoinedDistinct(was: seq<Req>, extReqs: seq<Req>, ready: seq<nat>)
    requires Distinct(was + extReqs) && (forall k | 0 <= k < |ready| :: ready[k] < |extReqs|)
    requires forall j, k | 0 <= j < k < |ready| :: ready[j] < ready[k]
    ensures Distinct(was + Select(extReqs, ready))
  {
    hide Distinct;
    JoinDistinct(was, extReqs, Select(extReqs, ready), ready);
  }

  lemma JoinDistinct<T>(was: seq<T>, ext: seq<T>, picked: seq<T>, ready: seq<nat>)
    requires Distinct(was + ext) && |picked| == |ready|
    requires forall k | 0 <= k < |ready| :: ready[k] < |ext| && picked[k] == ext[ready[k]]
    requires forall j, k | 0 <= j < k < |ready| :: ready[j] < ready[k]
    ensures Distinct(was + picked)
  {
    var now := was + picked;
    forall i, j | 0 <= i < j < |now|
      ensures now[i] != now[j]
    {
      var a: nat := if i < |was| then i else |was| + ready[i - |was|];
      var b: nat := if j < |was| then j else |was| + ready[j - |was|];
      assert now[i] == (was + ext)[a] && now[j] == (was + ext)[b];
    }
  }

  lemma JoinedHold<T(!new)>(was: seq<Req>, old': seq<T>, ext: seq<Req>, ext': seq<T>, ready: seq<nat>)
    requires Distinct(was + ext) && |old'| == |was| && |ext'| == |ext| && InRange(ready, |ext|)
    ensures JoinedEntries(was, old', ext, ext', was + Select(ext, ready), old' + Select(ext', ready))
    ensures ready == [] ==> was + Select(ext, ready) == was && old' + Select(ext', ready) == old'
    ensures was == [] ==> was + Select(ext, ready) == Select(ext, ready)
    ensures old' == [] ==> old' + Select(ext', ready) == Select(ext', ready)
  {
    var now, new' := was + Select(ext, ready), old' + Select(ext', ready);
    forall r: Req, v: T | r in now
      ensures Holds(now, new', r, v) <==> Holds(was, old', r, v) || Holds(ext, ext', r, v)
    {
      if i: nat :| i < |was| && was[i] == r && old'[i] == v {
        assert now[i] == r && new'[i] == v;
      } else if j: nat :| j < |ext| && ext[j] == r && ext'[j] == v {
        JoinedPlace(was, ext, ready, r, j);
        var k: nat :| k < |ready| && ready[k] == j;
        assert now[|was| + k] == r && new'[|was| + k] == v;
      }
      if i: nat :| i < |now| && now[i] == r && new'[i] == v {
        assert i < |was| ==> was[i] == r && old'[i] == v;
        assert i >= |was| ==> ext[ready[i - |was|]] == r && ext'[ready[i - |was|]] == v;
      }
    }
  }

  lemma JoinedPlace(was: seq<Req>, ext: seq<Req>, ready: seq<nat>, r: Req, j: nat)
    requires Distinct(was + ext) && InRange(ready, |ext|) && j < |ext| && ext[j] == r
    requires r in was + Select(ext, ready)
    ensures exists k: nat :: k < |ready| && ready[k] == j
  {
    hide Select;
    ExtApart(was, ext, j);
    var i: nat :| i < |was + Select(ext, ready)| && (was + Select(ext, ready))[i] == r;
    var k: nat := i - |was|;
    ExtDistinct(was, ext, ready[k], j);
  }

  lemma ExtApart(was: seq<Req>, ext: seq<Req>, j: nat)
    requires Distinct(was + ext) && j < |ext|
    ensures forall i | 0 <= i < |was| :: was[i] != ext[j]
  {
    var all := was + ext;
    forall i | 0 <= i < |was|
      ensures was[i] != ext[j]
    {
      assert all[i] != all[|was| + j];
    }
  }

  lemma ExtDistinct(was: seq<Req>, ext: seq<Req>, i: nat, j: nat)
    requires Distinct(was + ext) && i < |ext| && j < |ext| && ext[i] == ext[j]
    ensures i == j
  {
    var all := was + ext;
    assert all[|was| + i] == ext[i] && all[|was| + j] == ext[j];
  }

  lemma JoinedIndices(was: seq<Req>, indices: seq<int>, extReqs: seq<Req>, extIndices: seq<int>, ready: seq<nat>)
    requires IndicesOf(extReqs, extIndices) && (forall k | 0 <= k < |ready| :: ready[k] < |extReqs|)
    ensures IndicesOf(Select(extReqs, ready), Select(extIndices, ready))
    ensures IndicesOf(was, indices) ==> IndicesOf(was + Select(extReqs, ready), indices + Select(extIndices, ready))
  {
  }

  // ---- Retraction ----------------------------------------------------------------------------

  /** A call of `release_request`: the request, its row of the table, and the tokens free before it. */
  datatype Release = Release(req: Req, row: int, available: nat)

  /** The KV manager as the retract loop sees it: how many tokens are free.  What a release frees is
      `KVCacheManagement.KVCacheManager.ReleaseRequest`; here it may be any amount. */
  class KvPool {
    var available: nat
    ghost var releases: seq<Release>

    constructor (available: nat)
      ensures this.available == available && releases == []
    {
      this.available, releases := available, [];
    }

    method ReleaseRequest(req: Req)
      modifies this
      ensures releases == old(releases) + [Release(req, req.reqPoolIdx, old(available))]
    {
      releases := releases + [Release(req, req.reqPoolIdx, available)];
      available := *;
    }
  }

  /** Requests of the prefix whose next token opens a page. */
  function PageOpeners(lens: seq<nat>, ps: nat): nat
    requires ps > 0
  {
    if lens == [] then 0 else PageOpeners(lens[..|lens| - 1], ps) + if lens[|lens| - 1] % ps == 0 then 1 else 0
  }

  function Times(a: nat, b: nat): nat {
    a * b
  }

  /** Tokens the first `bs` requests need for one decode step: a page for each that opens one, or for
      every request when the lengths are not known. */
  function Demand(lens: Option<seq<nat>>, bs: nat, ps: nat): nat
    requires ps > 0 && (lens.Some? ==> bs <= |lens.value|)
  {
    if lens.Some? then Times(PageOpeners(lens.value[..bs], ps), ps) else Times(bs, ps)
  }

  /** The free tokens cover the pages that the first `bs` requests open with one more token each; a page
      for every request when the lengths are not known. */
  ghost predicate Fits(lens: Option<seq<nat>>, bs: nat, ps: nat, available: int)
    requires ps > 0 && (lens.Some? ==> bs <= |lens.value|)
  {
    (if lens.Some? then GrowthPages(lens.value, bs, ps) * ps else bs * ps) <= available
  }

  /** The estimate is exact when the lengths are known. */
  lemma DemandFits(lens: Option<seq<nat>>, bs: nat, ps: nat, available: int)
    requires ps > 0 && (lens.Some? ==> bs <= |lens.value|)
    ensures Demand(lens, bs, ps) <= available <==> Fits(lens, bs, ps, available)
  {
    if lens.Some? {
      OpenersGrow(lens.value, bs, ps);
    }
  }

  lemma {:induction false} OpenersGrow(lens: seq<nat>, k: nat, ps: nat)
    requires ps > 0 && k <= |lens|
    ensures PageOpeners(lens[..k], ps) == GrowthPages(lens, k, ps)
  {
    if k > 0 {
      OpenersGrow(lens, k - 1, ps);
      assert lens[..k][..k - 1] == lens[..k - 1];
      OneTokenPage(lens[k - 1] + 1, ps);
    }
  }

  /** Without the lengths the estimate is enough for any lengths. */
  lemma FitsAnyLengths(lens: seq<nat>, bs: nat, ps: nat, available: int)
    requires ps > 0 && bs <= |lens| && Fits(None, bs, ps, available)
    ensures Fits(Some(lens), bs, ps, available)
  {
    GrowthMonotone(lens, 0, bs, ps);
    TimesMonotone(GrowthPages(lens, bs, ps), bs, ps);
  }

  lemma TimesMonotone(a: nat, b: nat, ps: nat)
    requires a <= b
    ensures a * ps <= b * ps
  {
    assert b * ps == a * ps + (b - a) * ps;
    assert (b - a) * ps >= 0;
  }

  /** The releases of the retract loop since `before`: the requests from `n` on, last one first, each
      while what was then in the batch did not fit. */
  ghost predicate Released(before: seq<Release>, releases: seq<Release>, was: seq<Req>, rows: seq<int>, n: nat,
      lens: Option<seq<nat>>, ps: nat)
    requires ps > 0 && (lens.Some? ==> |was| <= |lens.value|)
  {
    && n <= |was| == |rows| && |releases| == |before| + |was| - n && releases[..|before|] == before
    && forall i: nat | n <= i < |was| :: ReleasedShort(releases[|before|..], was, rows, i, lens, ps)
  }

  /** Request `i` was released while the first `i + 1` requests did not fit. */
  ghost predicate ReleasedShort(releases: seq<Release>, was: seq<Req>, rows: seq<int>, i: nat,
      lens: Option<seq<nat>>, ps: nat)
    requires ps > 0 && i < |was| == |rows| && (lens.Some? ==> |was| <= |lens.value|)
  {
    var k := |was| - 1 - i;
    && k < |releases| && releases[k].req == was[i] && releases[k].row == rows[i]
    && !Fits(lens, i + 1, ps, releases[k].available)
  }

  ghost function RowsOf(reqs: seq<Req>): (r: seq<int>)
    reads reqs
    ensures |r| == |reqs| && forall i | 0 <= i < |reqs| :: r[i] == reqs[i].reqPoolIdx
  {
    if reqs == [] then [] else RowsOf(reqs[..|reqs| - 1]) + [reqs[|reqs| - 1].reqPoolIdx]
  }

  /** The state a retracted request goes back to the queue with. */
  ghost predicate Reset(r: Req)
    reads r
  {
    && r.isRetracted && r.everRetracted && !r.finished && !r.isChunked && r.outputIds == []
    && r.reqPoolIdx == -1 && r.currentSeqLen == r.originLen && r.cacheProtectedLen == 0 && r.extendInputLen == 0
  }

  class Scheduler {
    const batch: RunningBatch
    const kv: KvPool
    const pageSize: nat
    var waitingQueue: seq<Req>
    var pendingReleaseReqs: seq<Req>
    var numRetractedReqs: nat

    constructor (kv: KvPool, pageSize: nat)
      ensures this.kv == kv && this.pageSize == pageSize && fresh(batch) && batch.Rows() && batch.reqs == []
      ensures waitingQueue == [] && pendingReleaseReqs == [] && numRetractedReqs == 0
    {
      this.kv, this.pageSize := kv, pageSize;
      batch := new RunningBatch();
      waitingQueue, pendingReleaseReqs, numRetractedReqs := [], [], 0;
    }

    /** The last request of the batch goes to the front of the queue, its KV memory released. */
    method RetractLast()
      requires batch.reqs != []
      modifies this`waitingQueue, this`pendingReleaseReqs, batch`reqs, kv, batch.reqs[|batch.reqs| - 1]
      ensures var last := old(batch.reqs)[|old(batch.reqs)| - 1];
        && batch.reqs == old(batch.reqs)[..|old(batch.reqs)| - 1] && waitingQueue == [last] + old(waitingQueue)
        && Reset(last)
        && Dropped(old(pendingReleaseReqs), [last], pendingReleaseReqs)
        && kv.releases == old(kv.releases) + [Release(last, old(last.reqPoolIdx), old(kv.available))]
    {
      var req := batch.reqs[|batch.reqs| - 1];
      batch.reqs := batch.reqs[..|batch.reqs| - 1];
      RemovedOnce(pendingReleaseReqs, req);
      pendingReleaseReqs := Without(pendingReleaseReqs, req);
      kv.ReleaseRequest(req);
      ResetRequest(req);
      waitingQueue := [req] + waitingQueue;
    }

    /** One round of the retract loop, and what it adds to what was released and dropped. */
    method RetractOne(ghost was: seq<Req>, ghost rows: seq<int>, ghost releases: seq<Release>, ghost pending: seq<Req>)
      requires pageSize > 0 && 0 < |batch.reqs| <= |was| == |rows| && batch.reqs == was[..|batch.reqs|]
      requires batch.seqLensCpu.Some? ==> |batch.seqLensCpu.value| == |was|
      requires was[|batch.reqs| - 1].reqPoolIdx == rows[|batch.reqs| - 1]
      requires !Fits(batch.seqLensCpu, |batch.reqs|, pageSize, kv.available)
      requires Released(releases, kv.releases, was, rows, |batch.reqs|, batch.seqLensCpu, pageSize)
      requires Dropped(pending, was[|batch.reqs|..], pendingReleaseReqs)
      modifies this`waitingQueue, this`pendingReleaseReqs, batch`reqs, kv, batch.reqs[|batch.reqs| - 1]
      ensures |batch.reqs| == |old(batch.reqs)| - 1 && batch.reqs == was[..|batch.reqs|]
      ensures waitingQueue == [was[|batch.reqs|]] + old(waitingQueue) && Reset(was[|batch.reqs|])
      ensures Released(releases, kv.releases, was, rows, |batch.reqs|, batch.seqLensCpu, pageSize)
      ensures Dropped(pending, was[|batch.reqs|..], pendingReleaseReqs)
    {
      hide Reset, Fits, Released, Dropped;
      var n := |batch.reqs| - 1;
      MoreReleased(releases, kv.releases, Release(was[n], rows[n], kv.available), was, rows, n + 1,
        batch.seqLensCpu, pageSize);
      ghost var before := pendingReleaseReqs;
      RetractLast();
      OneDropped(pending, was, n, before, pendingReleaseReqs);
    }

    /** `_check_decode_mem`: requests leave from the tail, and not one more than until the rest fits or
        none is left.  Nobody is lost or reordered: the batch followed by the queue is the same sequence
        as before. */
    method CheckDecodeMem() returns (retracted: bool)
      requires batch.Rows() && batch.Placeholders() && pageSize > 0
      modifies this, batch, kv, batch.reqs
      ensures batch.Rows() && batch.Placeholders()
      ensures retracted <==> !Fits(old(batch.seqLensCpu), |old(batch.reqs)|, pageSize, old(kv.available))
      ensures !retracted ==> unchanged(this) && unchanged(batch) && unchanged(kv)
      ensures retracted <==> |batch.reqs| < |old(batch.reqs)|
      ensures batch.reqs <= old(batch.reqs) && batch.reqs + waitingQueue == old(batch.reqs + waitingQueue)
      ensures batch.reqs == [] || Fits(old(batch.seqLensCpu), |batch.reqs|, pageSize, kv.available)
      ensures Released(old(kv.releases), kv.releases, old(batch.reqs), old(RowsOf(batch.reqs)), |batch.reqs|,
        old(batch.seqLensCpu), pageSize)
      ensures Dropped(old(pendingReleaseReqs), old(batch.reqs)[|batch.reqs|..], pendingReleaseReqs)
      ensures forall r | r in batch.reqs :: KeptAsIs(r)
      ensures forall r | r in old(batch.reqs) && r !in batch.reqs :: Reset(r)
      ensures numRetractedReqs == old(numRetractedReqs) + |old(batch.reqs)| - |batch.reqs|
      ensures retracted && batch.reqs != [] ==>
        && batch.seqLens.Some? && batch.seqLensCpu == batch.seqLens
        && forall i | 0 <= i < |batch.reqs| :: batch.seqLens.value[i] == batch.reqs[i].currentSeqLen
      ensures batch.outputIds == if !retracted then old(batch.outputIds)
                                 else if batch.reqs == [] || old(batch.outputIds).None? then None
                                 else Some(old(batch.outputIds).value[..|batch.reqs|])
    {
      hide Reset, Demand, Distinct, IndicesOf, PageOpeners, Fits, GrowthPages, Released, RowsOf,
           Dropped;
      NoneDropped(pendingReleaseReqs);
      ghost var was := batch.reqs;
      NothingReleased(kv.releases, was, RowsOf(was), batch.seqLensCpu, pageSize);
      assert was[|was|..] == [];
      DemandFits(batch.seqLensCpu, |batch.reqs|, pageSize, kv.available);
      if batch.reqs == [] {
        NoDemand(batch.seqLensCpu, pageSize);
        return false;
      }
      if kv.available >= Demand(batch.seqLensCpu, |batch.reqs|, pageSize) {
        return false;
      }
      var retractCount := RetractUntilFits();
      Prefix(was, |batch.reqs|);
      batch.Rebuild();
      numRetractedReqs := numRetractedReqs + retractCount;
      return true;
    }

    /** The retract loop, entered when the whole batch does not fit. */
    method RetractUntilFits() returns (retractCount: nat)
      requires Distinct(batch.reqs) && batch.reqs != [] && pageSize > 0
      requires batch.seqLensCpu.Some? ==> |batch.seqLensCpu.value| == |batch.reqs|
      requires !Fits(batch.seqLensCpu, |batch.reqs|, pageSize, kv.available)
      modifies this`waitingQueue, this`pendingReleaseReqs, batch`reqs, kv, batch.reqs
      ensures retractCount > 0 && |old(batch.reqs)| == |batch.reqs| + retractCount
      ensures batch.reqs == old(batch.reqs)[..|batch.reqs|]
      ensures waitingQueue == old(batch.reqs)[|batch.reqs|..] + old(waitingQueue)
      ensures Dropped(old(pendingReleaseReqs), old(batch.reqs)[|batch.reqs|..], pendingReleaseReqs)
      ensures forall i | 0 <= i < |batch.reqs| :: KeptAsIs(old(batch.reqs)[i])
      ensures forall i | |batch.reqs| <= i < |old(batch.reqs)| :: Reset(old(batch.reqs)[i])
      ensures Released(old(kv.releases), kv.releases, old(batch.reqs), old(RowsOf(batch.reqs)), |batch.reqs|,
        batch.seqLensCpu, pageSize)
      ensures batch.reqs == [] || Fits(batch.seqLensCpu, |batch.reqs|, pageSize, kv.available)
    {
      hide Reset, Demand, Distinct, PageOpeners, Fits, GrowthPages, Released, RowsOf, Dropped;
      NoneDropped(pendingReleaseReqs);
      ghost var was, rows := batch.reqs, RowsOf(batch.reqs);
      retractCount := 0;
      assert was[|was|..] == [];
      NothingReleased(kv.releases, was, rows, batch.seqLensCpu, pageSize);
      while |batch.reqs| > 0
        invariant |was| == |batch.reqs| + retractCount && batch.reqs == was[..|batch.reqs|]
        invariant waitingQueue == was[|batch.reqs|..] + old(waitingQueue)
        invariant Dropped(old(pendingReleaseReqs), was[|batch.reqs|..], pendingReleaseReqs)
        invariant forall i | 0 <= i < |batch.reqs| :: KeptAsIs(was[i])
        invariant forall i | |batch.reqs| <= i < |was| :: Reset(was[i])
        invariant Released(
          old(kv.releases), kv.releases, was, rows, |batch.reqs|, batch.seqLensCpu, pageSize)
        invariant retractCount == 0 ==> !Fits(batch.seqLensCpu, |was|, pageSize, kv.available)
        decreases |batch.reqs|
      {
        var bs := |batch.reqs|;
        DemandFits(batch.seqLensCpu, bs, pageSize, kv.available);
        if kv.available >= Demand(batch.seqLensCpu, bs, pageSize) {
          break;
        }
        Retracted(was, bs - 1, batch.reqs[bs - 1]);
        assert KeptAsIs(was[bs - 1]);
        RetractOne(was, rows, old(kv.releases), old(pendingReleaseReqs));
        retractCount := retractCount + 1;
      }
    }
  }

  lemma NothingReleased(releases: seq<Release>, was: seq<Req>, rows: seq<int>, lens: Option<seq<nat>>, ps: nat)
    requires ps > 0 && (lens.Some? ==> |was| <= |lens.value|) && |rows| == |was|
    ensures Released(releases, releases, was, rows, |was|, lens, ps)
  {
  }

  lemma MoreReleased(before: seq<Release>, releases: seq<Release>, entry: Release, was: seq<Req>, rows: seq<int>,
      n: nat, lens: Option<seq<nat>>, ps: nat)
    requires ps > 0 && (lens.Some? ==> |was| <= |lens.value|)
    requires n > 0 && Released(before, releases, was, rows, n, lens, ps)
    requires entry.req == was[n - 1] && entry.row == rows[n - 1] && !Fits(lens, n, ps, entry.available)
    ensures Released(before, releases + [entry], was, rows, n - 1, lens, ps)
  {
    hide Fits;
    assert (releases + [entry])[|before|..] == releases[|before|..] + [entry];
    forall i: nat | n - 1 <= i < |was|
      ensures ReleasedShort(releases[|before|..] + [entry], was, rows, i, lens, ps)
    {
      assert i >= n ==> ReleasedShort(releases[|before|..], was, rows, i, lens, ps);
    }
  }

  /** `now` is `was` without one occurrence each of the requests in `gone` that it has. */
  ghost predicate Dropped(was: seq<Req>, gone: seq<Req>, now: seq<Req>) {
    multiset(now) == multiset(was) - multiset(gone)
  }

  lemma NoneDropped(was: seq<Req>)
    ensures Dropped(was, [], was)
  {
  }

  lemma OneDropped(was: seq<Req>, batch: seq<Req>, n: nat, now: seq<Req>, next: seq<Req>)
    requires n < |batch| && Dropped(was, batch[n + 1..], now) && Dropped(now, [batch[n]], next)
    ensures Dropped(was, batch[n..], next)
  {
    assert batch[n..] == [batch[n]] + batch[n + 1..];
    assert multiset(batch[n..]) == multiset{batch[n]} + multiset(batch[n + 1..]);
  }

  lemma {:induction false} RemovedOnce(reqs: seq<Req>, r: Req)
    ensures Dropped(reqs, [r], Without(reqs, r))
  {
    if reqs != [] {
      RemovedOnce(reqs[1..], r);
      assert reqs == [reqs[0]] + reqs[1..];
      assert multiset(reqs) == multiset{reqs[0]} + multiset(reqs[1..]);
      if reqs[0] != r {
        assert multiset(Without(reqs, r)) == multiset{reqs[0]} + multiset(Without(reqs[1..], r));
      }
    }
  }

  lemma NoDemand(lens: Option<seq<nat>>, ps: nat)
    requires ps > 0
    ensures Demand(lens, 0, ps) == 0
  {
  }

  twostate predicate KeptAsIs(r: Req)
    reads r
  {
    unchanged(r)
  }

  method ResetRequest(req: Req)
    modifies req
    ensures Reset(req)
  {
    req.isRetracted, req.everRetracted, req.finished, req.isChunked := true, true, false, false;
    req.outputIds, req.cacheProtectedLen, req.extendInputLen, req.reqPoolIdx := [], 0, 0, -1;
    req.currentSeqLen := req.originLen;
  }

  /** `list.remove`, if present. */
  function Without(reqs: seq<Req>, r: Req): seq<Req> {
    if reqs == [] then [] else if reqs[0] == r then reqs[1..] else [reqs[0]] + Without(reqs[1..], r)
  }

  lemma Retracted(was: seq<Req>, n: nat, r: Req)
    requires Distinct(was) && n < |was| && was[n] == r
    ensures was[n..] == [r] + was[n + 1..] && forall i | 0 <= i < |was| && i != n :: was[i] != r
  {
  }

  lemma Prefix(was: seq<Req>, n: nat)
    requires Distinct(was) && n <= |was|
    ensures Distinct(was[..n]) && was[..n] + was[n..] == was
  {
  }
}
