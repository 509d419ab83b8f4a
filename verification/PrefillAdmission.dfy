/** Admission of waiting requests to a prefill batch against the free KV tokens. */
module PrefillAdmission {
  import opened Wrappers
  import opened Pages

  const CLIP_MAX_NEW_TOKENS := 1024

  datatype AddReqResult = CONTINUE | NO_TOKEN | OTHER

  /** The adder's counters; `remChunk` is absent when chunked prefill is off. */
  datatype Budget = Budget(
    available: int, totalOffset: int, curOffset: int, remInput: int, remChunk: Option<int>, pageSize: nat,
        maxBatch: int)
  {
    function RemTotal(): int {
      available - totalOffset
    }

    function CurRem(): int {
      available - curOffset
    }

    /** `budget_state`. */
    function State(): AddReqResult {
      if RemTotal() <= 0 || CurRem() <= 0 then NO_TOKEN
      else if remInput <= 0 then OTHER
      else if remChunk.Some? && remChunk.value <= 0 then OTHER
      else CONTINUE
    }

    /** `_update_prefill_budget`. */
    function Charge(extend: nat, newTokens: int): Budget
      requires pageSize > 0
    {
      var aligned := AlignUp(extend, pageSize);
      Budget(available, totalOffset + aligned + newTokens, curOffset + aligned, remInput - aligned,
             if remChunk.Some? then Some(remChunk.value - aligned) else None, pageSize, maxBatch)
    }
  }

  function Max(a: int, b: int): int {
    if a >= b then a else b
  }

  /** `_align_up`: `((v + a - 1) // a) * a`. */
  function AlignUp(v: nat, ps: nat): (r: nat)
    requires ps > 0
    ensures Aligned(r, ps) && v <= r < v + ps
  {
    AlignLen(v + ps - 1, ps)
  }

  /** The floor `(v // a) * a`; below zero it rounds down, which only its sign matters for. */
  function AlignDown(v: int, ps: nat): (r: int)
    requires ps > 0
    ensures r <= v < r + ps && (r > 0 ==> Aligned(r, ps)) && (v >= 0 ==> r >= 0)
  {
    if v >= 0 then AlignLen(v, ps) else 0 - AlignUp(0 - v, ps)
  }

  lemma AlignDownIsFloor(v: int, ps: nat)
    requires ps > 0
    ensures AlignDown(v, ps) == v / ps * ps
  {
    if v >= 0 {
      AlignLenIsFloor(v, ps);
    } else {
      var a := AlignUp(0 - v, ps);
      AlignedMod(a, ps);
      var q: int := a / ps;
      assert (0 - q) * ps == 0 - q * ps;
      DivModUnique(v, ps, 0 - q, v + a);
    }
  }

  /** What one call decides: refuse, pass over an empty request, run it whole, or run its first
      `length` tokens. */
  datatype Decision = Refuse(result: AddReqResult) | PassOver | Whole | Chunk(length: nat)

  function DecodeReserve(maxTokens: int, outputs: nat): (r: int)
    ensures r >= 0
  {
    Min(Max(maxTokens - outputs, 0), CLIP_MAX_NEW_TOKENS)
  }

  /** The chunk when the whole request does not fit the total budget, if any. */
  function BudgetChunk(b: Budget, extend: nat): Option<nat>
    requires b.pageSize > 0 && b.remChunk.Some? && extend > 0
  {
    var room := AlignDown(Max(b.RemTotal() - 1, 0), b.pageSize);
    if b.RemTotal() < b.pageSize || room < b.pageSize then None
    else
      var chunkCap := if b.remChunk.value != 0 then b.remChunk.value else extend;
      var trunc := AlignDown(Min(Min(room, extend), chunkCap), b.pageSize);
      if trunc >= extend then
        var less := AlignDown(Max(trunc - b.pageSize, 0), b.pageSize);
        if less < b.pageSize then None else Some(less)
      else if trunc <= 0 then None
      else Some(trunc)
  }

  function Decide(b: Budget, running: nat, extend: int, maxTokens: int, outputs: nat): Decision
    requires b.pageSize > 0
  {
    if running >= b.maxBatch then Refuse(OTHER)
    else if extend <= 0 then PassOver
    else if extend + DecodeReserve(maxTokens, outputs) > b.RemTotal() then
      if b.remChunk.None? then Refuse(NO_TOKEN)
      else if BudgetChunk(b, extend).None? then Refuse(NO_TOKEN)
      else Chunk(BudgetChunk(b, extend).value)
    else if AlignUp(extend, b.pageSize) >= b.remInput && running > 0 then Refuse(OTHER)
    else if b.remChunk.None? || AlignUp(extend, b.pageSize) <= b.remChunk.value then Whole
    else
      var trunc := AlignDown(b.remChunk.value, b.pageSize);
      if trunc <= 0 then Refuse(OTHER) else Chunk(trunc)
  }

  /** `n` is a positive number of whole pages and short of the whole request. */
  predicate IsPart(n: int, extend: int, ps: nat)
    requires ps > 0
  {
    0 < n < extend && Aligned(n, ps)
  }

  /** A part to run when the total budget is short: it leaves a token of that, and fits the chunk budget,
      of which zero means no limit here. */
  predicate BudgetPart(b: Budget, extend: int, n: int)
    requires b.pageSize > 0
  {
    && IsPart(n, extend, b.pageSize) && n < b.RemTotal() && b.remChunk.Some?
    && (b.remChunk.value == 0 || n <= b.remChunk.value)
  }

  /** A part to run when only the chunk budget is short. */
  predicate ChunkPart(b: Budget, extend: int, n: int)
    requires b.pageSize > 0
  {
    IsPart(n, extend, b.pageSize) && b.remChunk.Some? && n <= b.remChunk.value
  }

  /** The largest such part is run, and none only if there is none. */
  lemma BudgetChunkIsLargest(b: Budget, extend: nat, n: int)
    requires b.pageSize > 0 && b.remChunk.Some? && extend > 0
    ensures var c := BudgetChunk(b, extend); c.Some? ==> BudgetPart(b, extend, c.value)
    ensures var c := BudgetChunk(b, extend); BudgetPart(b, extend, n) ==> c.Some? && n <= c.value
  {
    hide AlignDown, Aligned;
    var ps := b.pageSize;
    var room := AlignDown(Max(b.RemTotal() - 1, 0), ps);
    var chunkCap := if b.remChunk.value != 0 then b.remChunk.value else extend;
    var trunc := AlignDown(Min(Min(room, extend), chunkCap), ps);
    AlignDownPart(Max(trunc - ps, 0), ps, n);
    AlignDownPart(Max(b.RemTotal() - 1, 0), ps, n);
    AlignDownPart(Min(Min(room, extend), chunkCap), ps, n);
    if IsPart(n, extend, ps) {
      AlignedGap(0, n, ps);
      if Aligned(extend, ps) {
        AlignedGap(n, extend, ps);
      }
    }
  }

  /** `AlignDown` keeps every page multiple that fits. */
  lemma AlignDownPart(v: int, ps: nat, n: int)
    requires ps > 0
    ensures n > 0 && Aligned(n, ps) && n <= v ==> n <= AlignDown(v, ps)
  {
    if n > 0 && Aligned(n, ps) && AlignDown(v, ps) < n <= v {
      AlignedGap(0, n, ps);
      AlignedGap(AlignDown(v, ps), n, ps);
    }
  }

  lemma ChunkPartIsLargest(b: Budget, extend: nat, n: int)
    requires b.pageSize > 0 && b.remChunk.Some? && extend > 0 && b.remChunk.value < AlignUp(extend, b.pageSize)
    ensures var c := AlignDown(b.remChunk.value, b.pageSize);
            && (c > 0 ==> ChunkPart(b, extend, c)) && (ChunkPart(b, extend, n) ==> 0 < n <= c)
  {
    hide AlignDown, AlignUp, Aligned;
    var c := AlignDown(b.remChunk.value, b.pageSize);
    AlignDownPart(b.remChunk.value, b.pageSize, n);
    if c > 0 {
      AlignedGap(c, AlignUp(extend, b.pageSize), b.pageSize);
    }
  }

  /** The part of the request to run, given what it needs of the total budget. */
  predicate Part(b: Budget, extend: int, need: int, n: int)
    requires b.pageSize > 0
  {
    if need > b.RemTotal() then BudgetPart(b, extend, n) else ChunkPart(b, extend, n)
  }

  /** When each decision is taken.  `need` is what the request needs of the total budget and `up` its
      length in whole pages. */
  lemma DecisionMeans(b: Budget, running: nat, extend: int, maxTokens: int, outputs: nat)
    requires b.pageSize > 0
    ensures var d := Decide(b, running, extend, maxTokens, outputs);
      var up := AlignUp(Max(extend, 0), b.pageSize);
      var need := extend + DecodeReserve(maxTokens, outputs);
      var short := need > b.RemTotal();
      var busy := running > 0 && up >= b.remInput;
      && (d.Whole? <==>
            && running < b.maxBatch && extend > 0 && !short && !busy && (b.remChunk.Some? ==> up <= b.remChunk.value))
      && (d.Chunk? ==>
            && running < b.maxBatch && extend > 0 && (short || (!busy && b.remChunk.Some? && up > b.remChunk.value))
            && Part(b, extend, need, d.length) && forall n | Part(b, extend, need, n) :: n <= d.length)
      && (d == Refuse(NO_TOKEN) <==>
            running < b.maxBatch && extend > 0 && short && forall n :: !BudgetPart(b, extend, n))
      && (d == Refuse(OTHER) <==>
            || running >= b.maxBatch
            || (&& extend > 0 && !short
                && (busy || (b.remChunk.Some? && up > b.remChunk.value && forall n :: !ChunkPart(b, extend, n)))))
      && (d.PassOver? <==> running < b.maxBatch && extend <= 0) && d != Refuse(CONTINUE)
  {
    hide AlignUp, AlignDown, Aligned, BudgetChunk, DecodeReserve, BudgetPart, ChunkPart;
    if extend > 0 && b.remChunk.Some? {
      forall n: int
        ensures BudgetPart(b, extend, n) ==> BudgetChunk(b, extend).Some? && n <= BudgetChunk(b, extend).value
        ensures BudgetChunk(b, extend).Some? ==> BudgetPart(b, extend, BudgetChunk(b, extend).value)
      {
        BudgetChunkIsLargest(b, extend, n);
      }
      if b.remChunk.value < AlignUp(extend, b.pageSize) {
        var c := AlignDown(b.remChunk.value, b.pageSize);
        forall n: int
          ensures (c > 0 ==> ChunkPart(b, extend, c)) && (ChunkPart(b, extend, n) ==> 0 < n <= c)
        {
          ChunkPartIsLargest(b, extend, n);
        }
      }
    } else {
      NoPart(b, extend);
    }
  }

  /** What is answered and whether a request is added, with `length` tokens to run.  `need` is what it
      needs of the total budget, `up` its length in whole pages; it is short when the total budget does
      not cover the need, and busy when others are in the batch and its pages reach the input budget. */
  ghost predicate Answers(b: Budget, running: nat, extend: int, maxTokens: int, outputs: nat, added: bool, length: int,
      result: AddReqResult)
    requires b.pageSize > 0
  {
    var up := AlignUp(Max(extend, 0), b.pageSize);
    var need := extend + Min(Max(maxTokens - outputs, 0), 1024);
    var short, busy := need > b.available - b.totalOffset, running > 0 && up >= b.remInput;
    && (added && length == extend <==>
          && running < b.maxBatch && extend > 0 && !short && !busy && (b.remChunk.Some? ==> up <= b.remChunk.value))
    && (added && length != extend ==>
          && running < b.maxBatch && extend > 0 && (short || (!busy && b.remChunk.Some? && up > b.remChunk.value))
          && Part(b, extend, need, length) && forall n | Part(b, extend, need, n) :: n <= length)
    && (result == NO_TOKEN <==>
          running < b.maxBatch && extend > 0 && short && forall n :: !BudgetPart(b, extend, n))
    && (result == OTHER <==>
          || running >= b.maxBatch
          || (&& extend > 0 && !short
              && (busy || (b.remChunk.Some? && up > b.remChunk.value && forall n :: !ChunkPart(b, extend, n)))))
    && (result == CONTINUE <==> added || (running < b.maxBatch && extend <= 0))
  }

  /** What an added request costs: its pages, and if it runs whole the tokens it may generate. */
  ghost predicate Charged(b: Budget, extend: int, length: int, maxTokens: int, after: Budget)
    requires b.pageSize > 0
  {
    var paged := AlignUp(Max(length, 0), b.pageSize);
    && after.totalOffset == b.totalOffset + paged + (if length == extend then Min(maxTokens, 1024) else 0)
    && after.curOffset == b.curOffset + paged && after.remInput == b.remInput - paged
    && after.remChunk == (if b.remChunk.Some? then Some(b.remChunk.value - paged) else None)
    && after.available == b.available && after.pageSize == b.pageSize && after.maxBatch == b.maxBatch
  }

  lemma DecisionAnswers(b: Budget, running: nat, extend: int, maxTokens: int, outputs: nat)
    requires b.pageSize > 0
    ensures var d := Decide(b, running, extend, maxTokens, outputs);
      var added, length := d.Whole? || d.Chunk?, if d.Chunk? then d.length else extend;
      && (d.Whole? ==> extend > 0) && (added ==> running < b.maxBatch)
      && Answers(b, running, extend, maxTokens, outputs, added, length, if d.Refuse? then d.result else CONTINUE)
      && (added ==> Charged(b, extend, length, maxTokens, After(b, d, extend, maxTokens)))
      && (!added ==> After(b, d, extend, maxTokens) == b)
  {
    hide AlignUp, AlignDown, Aligned, Part, BudgetPart, ChunkPart, Decide;
    DecisionMeans(b, running, extend, maxTokens, outputs);
    var d := Decide(b, running, extend, maxTokens, outputs);
    if d.Chunk? {
      ChunksAreProper(b, running, extend, maxTokens, outputs);
    } else if d.Whole? {
      AlignUpFixes(AlignUp(extend, b.pageSize), b.pageSize);
    }
  }

  lemma NoPart(b: Budget, extend: int)
    requires b.pageSize > 0 && (extend <= 0 || b.remChunk.None?)
    ensures forall n :: !BudgetPart(b, extend, n) && !ChunkPart(b, extend, n)
  {
  }

  /** Every chunk is a positive number of whole pages, strictly shorter than the request, and within
      what is left; so a chunk never turns out to be the whole request. */
  lemma ChunksAreProper(b: Budget, running: nat, extend: int, maxTokens: int, outputs: nat)
    requires b.pageSize > 0 && Decide(b, running, extend, maxTokens, outputs).Chunk?
    ensures var n := Decide(b, running, extend, maxTokens, outputs).length;
            0 < n < extend && Aligned(n, b.pageSize) && n <= b.RemTotal() && AlignUp(n, b.pageSize) == n
  {
    var n := Decide(b, running, extend, maxTokens, outputs).length;
    if extend + DecodeReserve(maxTokens, outputs) > b.RemTotal() {
      assert Some(n) == BudgetChunk(b, extend);
    } else {
      var up := AlignUp(extend, b.pageSize);
      assert n < up;
      AlignedGap(n, up, b.pageSize);
    }
    AlignUpFixes(n, b.pageSize);
  }

  lemma AlignUpFixes(n: nat, ps: nat)
    requires ps > 0 && Aligned(n, ps)
    ensures AlignUp(n, ps) == n
  {
    if n < AlignUp(n, ps) {
      AlignedGap(n, AlignUp(n, ps), ps);
    }
  }

  /** The budget after the decision. */
  function After(b: Budget, d: Decision, extend: int, maxTokens: int): Budget
    requires b.pageSize > 0 && (d.Whole? ==> extend > 0)
  {
    match d
    case Whole => b.Charge(AlignUp(extend, b.pageSize), Min(maxTokens, CLIP_MAX_NEW_TOKENS))
    case Chunk(n) => b.Charge(n, 0)
    case _ => b
  }

  /** Whole pages charged so far, all of them available; the total offset covers them. */
  predicate Committed(b: Budget) {
    && b.pageSize > 0 && b.available >= 0 && Aligned(b.available, b.pageSize)
    && 0 <= b.curOffset <= b.available && Aligned(b.curOffset, b.pageSize) && b.curOffset <= b.totalOffset
  }

  /** An unrounded length that fits is, rounded up to pages, still within whole pages. */
  lemma RoundedFits(extend: nat, room: nat, ps: nat)
    requires ps > 0 && Aligned(room, ps) && extend <= room
    ensures AlignUp(extend, ps) <= room
  {
    if room < AlignUp(extend, ps) {
      AlignedGap(room, AlignUp(extend, ps), ps);
    }
  }

  /** Admission never overcommits, although the check compares unrounded lengths. */
  lemma AdmitKeepsCommitted(b: Budget, running: nat, extend: int, maxTokens: nat, outputs: nat)
    requires Committed(b)
    ensures Committed(After(b, Decide(b, running, extend, maxTokens, outputs), extend, maxTokens))
  {
    var d := Decide(b, running, extend, maxTokens, outputs);
    var ps := b.pageSize;
    AlignedSub(b.available, b.curOffset, ps);
    match d
    case Whole =>
      var up := AlignUp(extend, ps);
      AlignUpFixes(up, ps);
      RoundedFits(extend, b.available - b.curOffset, ps);
      AlignedAdd(b.curOffset, up, ps);
    case Chunk(n) =>
      ChunksAreProper(b, running, extend, maxTokens, outputs);
      AlignedAdd(b.curOffset, n, ps);
    case _ =>
  }

  /** The page-multiple availability is what this rests on: any other availability is overcommitted by
      a request of just that length. */
  lemma UnalignedOvercommits(available: nat, ps: nat)
    requires ps > 0 && !Aligned(available, ps)
    ensures var b := Budget(available, 0, 0, available + ps, None, ps, 1);
            Decide(b, 0, available, 0, 0).Whole?
            && After(b, Decide(b, 0, available, 0, 0), available, 0).curOffset > available
  {
    hide AlignUp;
    assert Aligned(0, ps);
    AlignUpFixes(AlignUp(available, ps), ps);
  }

  /** The reserve that is charged is the one that was checked, as for a request without outputs: then
      the total budget is overdrawn by less than a page. */
  lemma OverdrawnByLessThanAPage(b: Budget, running: nat, extend: int, maxTokens: nat, outputs: nat)
    requires b.pageSize > 0 && b.RemTotal() > 0 - b.pageSize
    requires Min(maxTokens, CLIP_MAX_NEW_TOKENS) == DecodeReserve(maxTokens, outputs)
    ensures After(b, Decide(b, running, extend, maxTokens, outputs), extend, maxTokens).RemTotal() > 0 - b.pageSize
  {
    var d := Decide(b, running, extend, maxTokens, outputs);
    match d
    case Whole =>
      AlignUpFixes(AlignUp(extend, b.pageSize), b.pageSize);
    case Chunk(n) =>
      ChunksAreProper(b, running, extend, maxTokens, outputs);
    case _ =>
  }

  /** And only then: whenever the two reserves differ, some budget is overdrawn by a page or more. */
  lemma MismatchOverdraws(maxTokens: nat, outputs: nat, ps: nat) returns (b: Budget, extend: int)
    requires ps > 0 && Min(maxTokens, CLIP_MAX_NEW_TOKENS) != DecodeReserve(maxTokens, outputs)
    ensures b.pageSize == ps && b.RemTotal() > 0 - ps && Decide(b, 0, extend, maxTokens, outputs).Whole?
    ensures After(b, Decide(b, 0, extend, maxTokens, outputs), extend, maxTokens).RemTotal() <= 0 - ps
  {
    hide AlignUp;
    b, extend := Budget(1 + DecodeReserve(maxTokens, outputs), 0, 0, ps + 1, None, ps, 1), 1;
    assert Aligned(0, ps);
    AlignedGap(0, AlignUp(1, ps), ps);
    AlignUpFixes(AlignUp(1, ps), ps);
  }

  // ---- The adder object ----------------------------------------------------------------------

  class Req {
    var maxTokens: nat
    var outputIds: seq<int>
    var extendInputLen: int
    var prefixLen: nat
    var fillIds: seq<int>
    var isChunked: bool

    constructor (maxTokens: nat, fillIds: seq<int>, prefixLen: nat)
      requires prefixLen <= |fillIds|
      ensures this.maxTokens == maxTokens && outputIds == [] && extendInputLen == |fillIds| - prefixLen
      ensures this.prefixLen == prefixLen && this.fillIds == fillIds && !isChunked
    {
      this.maxTokens, this.outputIds, this.fillIds := maxTokens, [], fillIds;
      this.extendInputLen, this.prefixLen, this.isChunked := |fillIds| - prefixLen, prefixLen, false;
    }
  }

  /** Tokens the batch will occupy, each request rounded up to whole pages. */
  ghost function PagedTotal(reqs: seq<Req>, ps: nat): nat
    requires ps > 0
    reads set r | r in reqs
  {
    if reqs == [] then 0
    else PagedTotal(reqs[..|reqs| - 1], ps) + AlignUp(Max(reqs[|reqs| - 1].extendInputLen, 0), ps)
  }

  lemma PagedTotalAppend(reqs: seq<Req>, req: Req, ps: nat)
    requires ps > 0
    ensures PagedTotal(reqs + [req], ps) == PagedTotal(reqs, ps) + AlignUp(Max(req.extendInputLen, 0), ps)
  {
    assert (reqs + [req])[..|reqs|] == reqs;
  }

  class PrefillAdder {
    var budget: Budget
    var canRunList: seq<Req>
    var newChunkedReq: Req?

    /** The free pages cover the batch, rounded up to pages. */
    ghost predicate Valid()
      reads this, canRunList
    {
      && Committed(budget)
      && budget.curOffset == PagedTotal(canRunList, budget.pageSize)
    }

    constructor (available: nat, runningReserves: seq<nat>, maxExtend: int, maxBatch: int, chunkSize: Option<int>,
        pageSize: nat)
      requires pageSize > 0 && Aligned(available, pageSize)
      ensures Valid() && canRunList == [] && newChunkedReq == null
      ensures budget == Budget(available, SumOf(runningReserves), 0, maxExtend, chunkSize, pageSize, maxBatch)
    {
      budget := Budget(available, SumOf(runningReserves), 0, maxExtend, chunkSize, pageSize, maxBatch);
      canRunList := [];
      newChunkedReq := null;
    }

    /** `_do_chunked_prefill`: runs the first `truncLen` tokens; a request that turns out to be whole is
        charged its decode reserve. */
    method DoChunkedPrefill(req: Req, truncLen: int, extendLen: int, maxTokens: nat) returns (result: AddReqResult)
      requires Valid() && req !in canRunList
      requires truncLen > 0 ==> Aligned(truncLen, budget.pageSize) && truncLen <= budget.CurRem()
      modifies this, req
      ensures Valid()
      ensures truncLen <= 0 ==> result == OTHER && unchanged(this) && unchanged(req)
      ensures truncLen > 0 ==>
                && result == CONTINUE && canRunList == old(canRunList) + [req] && req.extendInputLen == truncLen
                && req.fillIds == Truncated(old(req.fillIds), req.prefixLen + truncLen)
                && req.isChunked == (truncLen < extendLen)
                && newChunkedReq == (if truncLen < extendLen then req else old(newChunkedReq))
                && budget == old(budget).Charge(truncLen, if truncLen < extendLen then 0
                     else Min(maxTokens, CLIP_MAX_NEW_TOKENS))
      ensures req.maxTokens == old(req.maxTokens) && req.outputIds == old(req.outputIds)
      ensures req.prefixLen == old(req.prefixLen)
    {
      hide AlignUp, Aligned, Truncated, PagedTotal;
      if truncLen <= 0 {
        return OTHER;
      }
      var actuallyTruncated := truncLen < extendLen;
      req.extendInputLen := truncLen;
      req.fillIds := Truncated(req.fillIds, req.prefixLen + truncLen);
      canRunList := canRunList + [req];
      AlignUpFixes(truncLen, budget.pageSize);
      AlignedAdd(budget.curOffset, truncLen, budget.pageSize);
      if actuallyTruncated {
        req.isChunked := true;
        newChunkedReq := req;
        budget := budget.Charge(truncLen, 0);
      } else {
        req.isChunked := false;
        budget := budget.Charge(truncLen, Min(maxTokens, CLIP_MAX_NEW_TOKENS));
      }
      PagedTotalAppend(old(canRunList), req, budget.pageSize);
      return CONTINUE;
    }

    /** The request does not fit the total budget: as many whole pages of it as do, but not all of it. */
    method AddForBudget(req: Req) returns (result: AddReqResult)
      requires Valid() && req !in canRunList && budget.remChunk.Some? && req.extendInputLen > 0
      requires var c := BudgetChunk(budget, req.extendInputLen);
               c.Some? ==>
                 Aligned(c.value, budget.pageSize) && 0 < c.value < req.extendInputLen && c.value <= budget.CurRem()
      modifies this, req
      ensures Valid()
      ensures var c := old(BudgetChunk(budget, req.extendInputLen));
              if c.None? then result == NO_TOKEN && unchanged(this) && unchanged(req)
              else
                && result == CONTINUE && canRunList == old(canRunList) + [req] && req.extendInputLen == c.value
                && req.fillIds == Truncated(old(req.fillIds), req.prefixLen + c.value)
                && req.isChunked && newChunkedReq == req && budget == old(budget).Charge(c.value, 0)
      ensures req.maxTokens == old(req.maxTokens) && req.outputIds == old(req.outputIds)
      ensures req.prefixLen == old(req.prefixLen)
    {
      hide AlignUp, Aligned, AlignDown, Truncated, PagedTotal, Committed;
      var extend, ps := req.extendInputLen, budget.pageSize;
      if budget.RemTotal() < ps {
        return NO_TOKEN;
      }
      var available := AlignDown(Max(budget.RemTotal() - 1, 0), ps);
      if available < ps {
        return NO_TOKEN;
      }
      var chunkCap := if budget.remChunk.value != 0 then budget.remChunk.value else extend;
      var trunc := AlignDown(Min(Min(available, extend), chunkCap), ps);
      if trunc >= extend {
        trunc := AlignDown(Max(trunc - ps, 0), ps);
        if trunc < ps {
          return NO_TOKEN;
        }
      }
      var added := DoChunkedPrefill(req, trunc, extend, req.maxTokens);
      return if added != CONTINUE then NO_TOKEN else CONTINUE;
    }

    method AddWhole(req: Req, inputTokens: nat)
      requires budget.pageSize > 0 && req.extendInputLen > 0
      requires inputTokens == AlignUp(req.extendInputLen, budget.pageSize)
      requires Valid() && Committed(budget.Charge(inputTokens, Min(req.maxTokens, CLIP_MAX_NEW_TOKENS)))
      modifies this
      ensures Valid() && canRunList == old(canRunList) + [req] && newChunkedReq == old(newChunkedReq)
      ensures budget == old(budget).Charge(inputTokens, Min(req.maxTokens, CLIP_MAX_NEW_TOKENS))
    {
      hide AlignUp, Aligned, PagedTotal;
      AlignUpFixes(inputTokens, budget.pageSize);
      canRunList := canRunList + [req];
      budget := budget.Charge(inputTokens, Min(req.maxTokens, CLIP_MAX_NEW_TOKENS));
      PagedTotalAppend(old(canRunList), req, budget.pageSize);
    }

    /** `try_add_prefill`: when a request is admitted whole, in part or not at all, and the batch stays
        within the free pages and the batch size whatever sequence of calls is made. */
    method TryAddPrefill(req: Req) returns (result: AddReqResult)
      requires Valid() && req !in canRunList
      modifies this, req
      ensures Valid() && (|old(canRunList)| <= budget.maxBatch ==> |canRunList| <= budget.maxBatch)
      ensures canRunList == old(canRunList) || canRunList == old(canRunList) + [req]
      ensures Answers(old(budget), |old(canRunList)|, old(req.extendInputLen), old(req.maxTokens),
        |old(req.outputIds)|, canRunList != old(canRunList), req.extendInputLen, result)
      ensures
        if canRunList == old(canRunList) then budget == old(budget)
        else Charged(old(budget), old(req.extendInputLen), req.extendInputLen, req.maxTokens, budget)
      ensures Decided(old(Decide(budget, |canRunList|, req.extendInputLen, req.maxTokens, |req.outputIds|)), req,
          result)
    {
      hide Decide, Answers, PagedTotal, After, Truncated, Aligned, AlignUp;
      DecisionAnswers(budget, |canRunList|, req.extendInputLen, req.maxTokens, |req.outputIds|);
      result := Try(req);
    }

    /** The branches of `try_add_prefill`. */
    method Try(req: Req) returns (result: AddReqResult)
      requires Valid() && req !in canRunList
      modifies this, req
      ensures Valid()
      ensures Decided(old(Decide(budget, |canRunList|, req.extendInputLen, req.maxTokens, |req.outputIds|)), req,
          result)
    {
      hide AlignUp, AlignDown, Aligned, Truncated, PagedTotal, DecodeReserve;
      ghost var d := Decide(budget, |canRunList|, req.extendInputLen, req.maxTokens, |req.outputIds|);
      AdmitKeepsCommitted(budget, |canRunList|, req.extendInputLen, req.maxTokens, |req.outputIds|);
      if d.Chunk? {
        ChunksAreProper(budget, |canRunList|, req.extendInputLen, req.maxTokens, |req.outputIds|);
      }
      if |canRunList| >= budget.maxBatch {
        return OTHER;
      }
      if req.extendInputLen <= 0 {
        return CONTINUE;
      }
      var extend: nat := req.extendInputLen;
      var ps := budget.pageSize;
      var inputTokens := AlignUp(extend, ps);
      if extend + DecodeReserve(req.maxTokens, |req.outputIds|) > budget.RemTotal() {
        if budget.remChunk.None? {
          return NO_TOKEN;
        }
        result := AddForBudget(req);
        return;
      }
      if inputTokens >= budget.remInput && |canRunList| > 0 {
        return OTHER;
      }
      if budget.remChunk.None? || inputTokens <= budget.remChunk.value {
        AddWhole(req, inputTokens);
        return CONTINUE;
      }
      result := DoChunkedPrefill(req, AlignDown(budget.remChunk.value, ps), extend, req.maxTokens);
    }

    /** What a call leaves behind, for the decision taken on the state before it. */
    twostate predicate Decided(d: Decision, req: Req, result: AddReqResult)
      requires old(budget.pageSize) > 0 && (d.Whole? ==> old(req.extendInputLen) > 0)
      reads this, req
    {
      && result == (if d.Refuse? then d.result else CONTINUE)
      && budget == After(old(budget), d, old(req.extendInputLen), old(req.maxTokens))
      && canRunList == old(canRunList) + (if d.Whole? || d.Chunk? then [req] else [])
      && req.extendInputLen == (if d.Chunk? then d.length else old(req.extendInputLen))
      && newChunkedReq == (if d.Chunk? then req else old(newChunkedReq))
      && req.isChunked == (d.Chunk? || old(req.isChunked))
      && req.fillIds == (if d.Chunk? then Truncated(old(req.fillIds), req.prefixLen + d.length) else old(req.fillIds))
      && req.maxTokens == old(req.maxTokens) && req.outputIds == old(req.outputIds)
           && req.prefixLen == old(req.prefixLen)
    }
  }

  /** `ids[:n]`. */
  function Truncated(ids: seq<int>, n: nat): seq<int> {
    if n <= |ids| then ids[..n] else ids
  }

  function SumOf(ns: seq<nat>): nat {
    if ns == [] then 0 else SumOf(ns[..|ns| - 1]) + ns[|ns| - 1]
  }
}
