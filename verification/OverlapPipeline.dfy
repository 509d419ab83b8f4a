/** The overlapped inference loop of miniinfer/engine/llm_engine.py and
    miniinfer/engine/overlap_executor.py: batch N is scheduled and launched before the tokens of
    batch N-1 are known; placeholders stand for them until the forward pass resolves them.

    A request's sampled token is a function of the request and the tokens its KV cache holds.
    Work on the forward and the copy stream takes effect in launch order. */
module OverlapPipeline {
  import opened Wrappers
  import opened Orders
  import opened FutureMaps

  type Rid = nat

  /** The model with its sampler, and the end-of-sequence token. */
  datatype World = World(next: (Rid, seq<int>) -> nat, eos: nat)

  datatype Req = Req(prompt: seq<int>, maxTokens: nat, ignoreEos: bool, outputIds: seq<int>, finished: bool)

  // ---------- What a request should produce ----------

  /** The first `n` tokens of autoregressive generation. */
  function Generated(w: World, rid: Rid, prompt: seq<int>, n: nat): (r: seq<int>)
    ensures |r| == n
  {
    if n == 0 then []
    else
      var before := Generated(w, rid, prompt, n - 1);
      before + [w.next(rid, prompt + before)]
  }

  function Token(w: World, rid: Rid, prompt: seq<int>, n: nat): int {
    Generated(w, rid, prompt, n + 1)[n]
  }

  /** Generation ends with `n` tokens. */
  predicate Stops(w: World, rid: Rid, r: Req, n: nat) {
    n > 0 && ((Token(w, rid, r.prompt, n - 1) == w.eos && !r.ignoreEos) || n >= r.maxTokens)
  }

  /** The outputs are generated tokens, none after the stop, and the request is finished exactly
      at the stop. */
  ghost predicate OutputOk(w: World, rid: Rid, r: Req) {
    && r.outputIds == Generated(w, rid, r.prompt, |r.outputIds|)
    && (forall k: nat | k < |r.outputIds| :: !Stops(w, rid, r, k))
    && (r.finished <==> Stops(w, rid, r, |r.outputIds|))
  }

  /** Finished outputs of the same request are equal, whatever loop produced them; an
      unfinished one is a prefix of a finished one. */
  lemma OutputsAgree(w: World, rid: Rid, a: Req, b: Req)
    requires OutputOk(w, rid, a) && OutputOk(w, rid, b) && b.finished
    requires a.prompt == b.prompt && a.maxTokens == b.maxTokens && a.ignoreEos == b.ignoreEos
    ensures a.outputIds <= b.outputIds && (a.finished ==> a.outputIds == b.outputIds)
  {
    var m, n := |a.outputIds|, |b.outputIds|;
    assert Stops(w, rid, a, n) == Stops(w, rid, b, n);
    assert m <= n;
    assert Stops(w, rid, a, m) == Stops(w, rid, b, m);
    GeneratedPrefix(w, rid, a.prompt, m, n);
  }

  lemma {:induction false} GeneratedPrefix(w: World, rid: Rid, prompt: seq<int>, m: nat, n: nat)
    requires m <= n
    ensures Generated(w, rid, prompt, m) <= Generated(w, rid, prompt, n)
  {
    if m < n {
      GeneratedPrefix(w, rid, prompt, m, n - 1);
    }
  }

  /** One processed token. */
  function Appended(w: World, r: Req, token: int): Req {
    var out := r.outputIds + [token];
    r.(outputIds := out, finished := (token == w.eos && !r.ignoreEos) || |out| >= r.maxTokens)
  }

  lemma AppendedOk(w: World, rid: Rid, r: Req, token: int)
    requires OutputOk(w, rid, r) && !r.finished && token == Token(w, rid, r.prompt, |r.outputIds|)
    ensures OutputOk(w, rid, Appended(w, r, token))
  {
    var r' := Appended(w, r, token);
    forall k: nat | k < |r'.outputIds|
      ensures !Stops(w, rid, r', k)
    {
      assert Stops(w, rid, r', k) == Stops(w, rid, r, k);
    }
  }

  // ---------- Engine ----------

  datatype Record = Record(reqs: seq<Rid>, fi: FutureIndices)
  datatype Batch = Batch(reqs: seq<Rid>, extend: bool, inputIds: seq<int>, usesPlaceholder: bool)

  class Engine {
    const world: World
    const futureMap: FutureMap
    const cpuNextTokenIds: array<int>
    var reqs: map<Rid, Req>
    var waiting: seq<Rid>
    var running: seq<Rid>
    /** `running_batch.output_ids`: placeholders of the running requests' last tokens. */
    var outputIds: Option<seq<int>>
    var resultQueue: seq<Record>
    var lastExtend: bool
    /** The tokens whose keys and values are cached. */
    var kv: map<Rid, seq<int>>
    /** How many tokens were sampled for a request, and the slots behind `outputIds`. */
    ghost var sampled: map<Rid, nat>
    ghost var slots: seq<Slot>

    // ----- Invariants -----

    /** A request of the running batch.  `ph.newly`: admitted, its first forward pass not launched;
        `ph.ahead`: the forward pass that consumes its last token is launched but not sampled;
        `pend`: its last token is not processed yet. */
    ghost predicate Tracked(rid: Rid, ph: Phase, pend: set<Rid>)
      reads this`reqs, this`kv, this`sampled
    {
      && rid in reqs && rid in sampled
      && (if rid in ph.newly then sampled[rid] == 0 && !reqs[rid].finished && reqs[rid].outputIds == [] && rid !in pend
          else
            && rid in kv && (rid !in ph.ahead || rid in pend ==> sampled[rid] >= 1)
            && (!reqs[rid].finished ==>
                  && kv[rid] == reqs[rid].prompt
                       + Generated(world, rid, reqs[rid].prompt, if rid in ph.ahead then sampled[rid]
                           else sampled[rid] - 1)
                  && |reqs[rid].outputIds| == sampled[rid] - (if rid in pend then 1 else 0)))
    }

    ghost predicate Inv(ph: Phase, pend: set<Rid>)
      reads this`reqs, this`kv, this`sampled, this`running, this`waiting
    {
      InvFor(running, waiting, ph, pend)
    }

    ghost predicate InvFor(run: seq<Rid>, wait: seq<Rid>, ph: Phase, pend: set<Rid>)
      reads this`reqs, this`kv, this`sampled
    {
      && Distinct(run) && Distinct(wait)
      && (forall rid | rid in run :: Tracked(rid, ph, pend))
      && (forall rid | rid in wait ::
           rid in reqs && !reqs[rid].finished && reqs[rid].outputIds == [] && rid !in run && rid !in pend)
      && (forall rid | rid in reqs :: OutputOk(world, rid, reqs[rid]))
      && (forall rid | rid in reqs && !reqs[rid].finished :: rid in run || rid in wait)
      && (forall rid | rid in pend :: rid in reqs && (reqs[rid].finished || rid in run))
    }

    /** The token is the last one sampled for the request. */
    ghost predicate IsLast(rs: map<Rid, Req>, rid: Rid, token: int)
      reads this`sampled
    {
      rid in rs && rid in sampled && sampled[rid] >= 1 && token == Token(world, rid, rs[rid].prompt, sampled[rid] - 1)
    }

    /** It is, unless the request has finished. */
    ghost predicate IsLastIfLive(rs: map<Rid, Req>, rid: Rid, token: int)
      reads this`sampled
    {
      rid in rs && !rs[rid].finished ==> IsLast(rs, rid, token)
    }

    /** At most one record is pending, and the pinned buffer still holds its tokens. */
    ghost predicate QueueOk()
      reads this`reqs, this`sampled, this`resultQueue, cpuNextTokenIds
    {
      && |resultQueue| <= 1
      && (resultQueue != [] ==>
            var rec := resultQueue[0];
            && Distinct(rec.reqs) && |rec.reqs| <= cpuNextTokenIds.Length
            && forall i | 0 <= i < |rec.reqs| :: IsLastIfLive(reqs, rec.reqs[i], cpuNextTokenIds[i]))
    }

    /** Entry `i` of `outs` is the placeholder of the last token of `base[i]`. */
    ghost predicate PlaceholdersOk(rs: map<Rid, Req>, outs: seq<int>, base: seq<Rid>, sl: seq<Slot>)
      requires futureMap.futureLimit > 0
      reads this`sampled, futureMap`stored
    {
      && |outs| == |base| == |sl|
      && forall i | 0 <= i < |outs| ::
           && outs[i] == -(futureMap.Index(sl[i]) as int) && sl[i] in futureMap.stored
           && IsLastIfLive(rs, base[i], futureMap.stored[sl[i]])
    }

    ghost predicate FutureOk(base: seq<Rid>)
      reads this`reqs, this`sampled, this`outputIds, this`slots, futureMap, futureMap.tokenIdsBuf
    {
      futureMap.Valid() && (outputIds.Some? ==> PlaceholdersOk(reqs, outputIds.value, base, slots))
    }

    ghost function Pending(): set<Rid>
      reads this`resultQueue
    {
      if resultQueue == [] then {} else Elements(resultQueue[0].reqs)
    }

    ghost predicate Buffers() {
      cpuNextTokenIds.Length == futureMap.maxRunning && cpuNextTokenIds != futureMap.tokenIdsBuf
    }

    ghost predicate Valid()
      reads this, futureMap, futureMap.tokenIdsBuf, cpuNextTokenIds
    {
      Buffers() && Inv(QUIET, Pending()) && QueueOk() && FutureOk(running)
    }

    constructor (world: World, maxRunning: nat, maxChunks: nat)
      requires maxRunning > 0
      ensures Valid() && reqs == map[] && running == [] && waiting == [] && resultQueue == []
      ensures fresh(futureMap) && fresh(futureMap.tokenIdsBuf) && fresh(cpuNextTokenIds) && this.world == world
      ensures outputIds == None && futureMap.maxRunning == maxRunning && futureMap.total == 0
      ensures futureMap.futureLimit == maxRunning * (3 + maxChunks)
    {
      this.world := world;
      var fm := new FutureMap(maxRunning, maxChunks);
      futureMap := fm;
      cpuNextTokenIds := new int[maxRunning];
      reqs, waiting, running, outputIds, resultQueue := map[], [], [], None, [];
      lastExtend, kv, sampled, slots := false, map[], map[], [];
    }

    /** A new request joins the waiting queue. */
    method AddRequest(rid: Rid, prompt: seq<int>, maxTokens: nat, ignoreEos: bool)
      requires Valid() && rid !in reqs
      modifies this`reqs, this`waiting
      ensures Valid() && reqs == old(reqs)[rid := Req(prompt, maxTokens, ignoreEos, [], false)]
      ensures waiting == old(waiting) + [rid]
    {
      hide Generated, Token, Stops, OutputOk;
      NewRequestOk(rid, prompt, maxTokens, ignoreEos);
      RequestsKnown();
      reqs := reqs[rid := Req(prompt, maxTokens, ignoreEos, [], false)];
      waiting := waiting + [rid];
      forall q | q in running
        ensures Tracked(q, QUIET, Pending())
      {
        assert old(Tracked(q, QUIET, Pending()));
      }
    }

    lemma RequestsKnown()
      requires Inv(QUIET, Pending())
      ensures forall rid | rid in running || rid in waiting || rid in Pending() :: rid in reqs
    {
    }

    lemma NewRequestOk(rid: Rid, prompt: seq<int>, maxTokens: nat, ignoreEos: bool)
      ensures OutputOk(world, rid, Req(prompt, maxTokens, ignoreEos, [], false))
    {
    }

    // ----- Processing the pending record -----

    /** `process_pending_batch`: the oldest record's tokens are cloned out of the pinned buffer and
        appended; requests that finished meanwhile are skipped. */
    method ProcessPending(ghost ph: Phase)
      requires Inv(ph, Pending()) && QueueOk() && resultQueue != []
      modifies this`reqs, this`resultQueue
      ensures Inv(ph, {}) && QueueOk() && resultQueue == [] && Processed(old(reqs), reqs, old(Pending()))
    {
      hide Inv, IsLastIfLive;
      var record := resultQueue[0];
      resultQueue := resultQueue[1..];
      var nextTokenIds := cpuNextTokenIds[..|record.reqs|];
      ProcessStepResult(record.reqs, nextTokenIds, ph);
    }

    /** `_process_step_result`. */
    method ProcessStepResult(batch: seq<Rid>, nextTokenIds: seq<int>, ghost ph: Phase)
      requires Inv(ph, Elements(batch)) && Distinct(batch) && |nextTokenIds| == |batch|
      requires forall i | 0 <= i < |batch| :: IsLastIfLive(reqs, batch[i], nextTokenIds[i])
      modifies this`reqs
      ensures Inv(ph, {}) && Processed(old(reqs), reqs, Elements(batch))
    {
      hide Inv;
      assert batch[0..] == batch;
      for i := 0 to |batch|
        invariant Inv(ph, Elements(batch[i..])) && Processed(old(reqs), reqs, Elements(batch[..i]))
        invariant forall k | i <= k < |batch| && batch[k] in reqs :: reqs[batch[k]] == old(reqs)[batch[k]]
      {
        assert IsLastIfLive(reqs, batch[i], nextTokenIds[i]);
        ProcessOne(batch, i, nextTokenIds[i], ph);
        assert batch[..i + 1] == batch[..i] + [batch[i]];
      }
      assert Elements(batch[|batch|..]) == {} && batch[..|batch|] == batch;
    }

    method ProcessOne(batch: seq<Rid>, i: nat, token: int, ghost ph: Phase)
      requires i < |batch| && Distinct(batch) && Inv(ph, Elements(batch[i..])) && IsLastIfLive(reqs, batch[i], token)
      modifies this`reqs
      ensures Inv(ph, Elements(batch[i + 1..])) && batch[i] in reqs && Processed(old(reqs), reqs, {batch[i]})
    {
      hide Generated, Token, Stops, OutputOk, Distinct;
      var rid := batch[i];
      LaterApart(batch, i);
      var r := reqs[rid];
      if r.finished {
        return;
      }
      assert rid in running && Tracked(rid, ph, Elements(batch[i..]));
      AppendedOk(world, rid, r, token);
      reqs := reqs[rid := Appended(world, r, token)];
      forall q | q in running
        ensures Tracked(q, ph, Elements(batch[i + 1..]))
      {
        assert old(Tracked(q, ph, Elements(batch[i..])));
        assert q != rid ==> (q in batch[i..] <==> q in batch[i + 1..]);
      }
    }

    static lemma LaterApart(batch: seq<Rid>, i: nat)
      requires i < |batch| && Distinct(batch)
      ensures batch[i..] == [batch[i]] + batch[i + 1..] && batch[i] !in batch[i + 1..]
      ensures batch[i] in Elements(batch[i..]) && forall r | r in Elements(batch[i + 1..]) :: r in Elements(batch[i..])
    {
    }

    /** Placeholders stay right while requests make progress. */
    lemma PlaceholdersStay(rs: map<Rid, Req>, rs': map<Rid, Req>, outs: seq<int>, base: seq<Rid>, sl: seq<Slot>)
      requires futureMap.futureLimit > 0 && PlaceholdersOk(rs, outs, base, sl) && Progress(rs, rs')
      ensures PlaceholdersOk(rs', outs, base, sl)
    {
    }

    // ----- Scheduling -----

    /** `_filter_batch`: finished requests leave, and their placeholders with them. */
    method FilterRunning()
      requires Valid()
      modifies this`running, this`outputIds, this`slots
      ensures Valid() && |running| <= |old(running)| && KeepsOrder(old(running), running)
      ensures forall rid :: rid in running <==> rid in old(running) && rid in reqs && !reqs[rid].finished
      ensures outputIds.Some? ==> old(outputIds.Some?) && forall sl | sl in slots :: sl in old(slots)
      ensures old(outputIds.Some?) && running != [] ==> outputIds.Some?
      ensures running == [] && old(running) != [] ==> outputIds == None
    {
      hide InvFor, QueueOk, PlaceholdersOk, KeepIndices, Gather, FutureMap.Valid, Before;
      if running == [] {
        return;
      }
      RequestsKnown();
      LimitPositive();
      RunningColumns();
      ghost var keep := KeepIndices(running, reqs, |running|);
      ghost var before := running;
      GatherDistinct(running, keep);
      KeptUnfinished(running, reqs);
      KeptPending(running, keep);
      KeptInv(keep);
      FilterFields();
      KeptPlaceholders(before, old(outputIds), old(slots), keep);
    }

    /** The assignments of `_filter_batch`. */
    method FilterFields()
      requires running != [] && (forall rid | rid in running :: rid in reqs)
      requires outputIds.Some? ==> |outputIds.value| == |running| == |slots|
      modifies this`running, this`outputIds, this`slots
      ensures var keep := KeepIndices(old(running), reqs, |old(running)|);
        && running == Gather(old(running), keep)
        && (outputIds.Some? <==> old(outputIds.Some?) && keep != [])
        && (outputIds.Some? ==>
              outputIds.value == Gather(old(outputIds.value), keep) && slots == Gather(old(slots), keep))
    {
      hide KeepIndices, Gather;
      var n := |running|;
      var keep := KeepIndices(running, reqs, n);
      running := Gather(running, keep);
      if |keep| == n {
        RisingAll(keep, n);
        if outputIds.Some? {
          GatherAll(outputIds.value, keep);
          GatherAll(slots, keep);
        }
        return;
      }
      if |keep| > 0 {
        if outputIds.Some? {
          outputIds := Some(Gather(outputIds.value, keep));
          slots := Gather(slots, keep);
        }
      } else {
        outputIds := None;
      }
    }

    lemma KeptPlaceholders(before: seq<Rid>, outs: Option<seq<int>>, sl: seq<Slot>, keep: seq<nat>)
      requires futureMap.futureLimit > 0 && forall j | 0 <= j < |keep| :: keep[j] < |before|
      requires outs.Some? ==> PlaceholdersOk(reqs, outs.value, before, sl)
      ensures outs.Some? ==>
        && PlaceholdersOk(reqs, Gather(outs.value, keep), Gather(before, keep), Gather(sl, keep))
        && forall x | x in Gather(sl, keep) :: x in sl
    {
    }

    /** Requests with a pending token that are dropped have finished. */
    lemma KeptPending(before: seq<Rid>, keep: seq<nat>)
      requires (forall rid | rid in before :: rid in reqs) && keep == KeepIndices(before, reqs, |before|)
      ensures forall rid | rid in before && !reqs[rid].finished :: rid in Gather(before, keep)
    {
      forall rid | rid in before && !reqs[rid].finished
        ensures rid in Gather(before, keep)
      {
        var i: nat :| i < |before| && before[i] == rid;
        assert i in keep;
        var j: nat :| j < |keep| && keep[j] == i;
        assert Gather(before, keep)[j] == rid;
      }
    }

    lemma RunningColumns()
      requires Valid()
      ensures Distinct(running) && (outputIds.Some? ==> |outputIds.value| == |running| == |slots|)
    {
      hide Distinct, Tracked, OutputOk;
    }

    lemma KeptInv(keep: seq<nat>)
      requires Inv(QUIET, Pending()) && (forall rid | rid in running :: rid in reqs)
      requires keep == KeepIndices(running, reqs, |running|)
      requires Distinct(Gather(running, keep)) && forall rid | rid in Gather(running, keep) :: rid in running
      ensures InvFor(Gather(running, keep), waiting, QUIET, Pending())
    {
      hide Generated, Token, OutputOk, KeepIndices, Gather, Tracked;
      KeptPending(running, keep);
    }

    /** The sampling counters of the admitted requests start at zero. */
    ghost method StartCounting(admit: seq<Rid>)
      requires Valid() && forall rid | rid in admit :: rid in waiting
      modifies this`sampled
      ensures Valid() && forall rid | rid in admit :: rid in sampled && sampled[rid] == 0
    {
      hide Generated, Token, OutputOk, Distinct, ZeroFor, Stops, FutureMap.Valid, FutureMap.Index;
      WaitingApart(admit);
      ZeroForFacts(sampled, admit);
      sampled := ZeroFor(sampled, admit);
    }

    /** The prefill half of `schedule`: the admitted requests join the running batch.  Their
        placeholders are not known yet, the old ones stay. */
    method ScheduleExtend(admit: seq<Rid>)
      requires Valid() && admit != [] && Distinct(admit) && forall rid | rid in admit :: rid in waiting
      modifies this`waiting, this`running, this`outputIds, this`sampled
      ensures Buffers() && Inv(Phase({}, Elements(admit)), Pending()) && QueueOk() && FutureOk(old(running))
      ensures running == old(running) + admit && (old(running) == [] ==> outputIds == None)
      ensures KeepsOrder(old(waiting), waiting)
      ensures forall rid :: rid in waiting <==> rid in old(waiting) && rid !in admit
      ensures old(running) != [] ==> outputIds == old(outputIds)
    {
      hide Without, QueueOk, PlaceholdersOk, InvFor, KeepsOrder;
      StartCounting(admit);
      AdmitInv(admit);
      waiting := Without(waiting, admit);
      if running == [] {
        outputIds := None;
      }
      running := running + admit;
    }

    lemma AdmitInv(admit: seq<Rid>)
      requires Inv(QUIET, Pending()) && Distinct(admit)
      requires forall rid | rid in admit :: rid in waiting && rid in sampled && sampled[rid] == 0
      ensures InvFor(running + admit, Without(waiting, admit), Phase({}, Elements(admit)), Pending())
      ensures KeepsOrder(waiting, Without(waiting, admit))
      ensures forall rid :: rid in Without(waiting, admit) <==> rid in waiting && rid !in admit
    {
      hide Generated, Token, OutputOk, Distinct, Without, Stops, Before;
      WaitingApart(admit);
      WithoutFacts(waiting, admit);
      ConcatDistinct(running, admit);
      forall rid | rid in running + admit
        ensures Tracked(rid, Phase({}, Elements(admit)), Pending())
      {
        assert rid !in admit ==> Tracked(rid, QUIET, Pending());
      }
    }

    lemma WaitingApart(admit: seq<Rid>)
      requires Inv(QUIET, Pending()) && forall rid | rid in admit :: rid in waiting
      ensures forall rid | rid in admit ::
          rid !in running && rid !in Pending() && rid in reqs && !reqs[rid].finished && reqs[rid].outputIds == []
    {
    }

    /** The decode half of `schedule`: the inputs are placeholders, or, when nothing is pending,
        the last output tokens themselves. */
    method ScheduleDecode(skip: bool) returns (inputIds: seq<int>)
      requires Valid() && running != [] && (forall rid | rid in running :: rid in reqs && !reqs[rid].finished)
      requires if skip then outputIds.Some? else resultQueue == []
      modifies this`outputIds
      ensures outputIds == None && |inputIds| == |running|
      ensures skip ==> PlaceholdersOk(reqs, inputIds, running, slots)
      ensures !skip ==> forall i | 0 <= i < |running| :: IsLast(reqs, running[i], inputIds[i])
    {
      hide Generated, OutputOk;
      if skip {
        inputIds := outputIds.value;
      } else {
        inputIds := [];
        for i := 0 to |running|
          invariant |inputIds| == i && forall k | 0 <= k < i :: IsLast(reqs, running[k], inputIds[k])
        {
          LastOutput(running[i]);
          var out := reqs[running[i]].outputIds;
          inputIds := inputIds + [out[|out| - 1]];
        }
      }
      outputIds := None;
    }

    lemma LastOutput(rid: Rid)
      requires Inv(QUIET, {}) && rid in running && rid in reqs && !reqs[rid].finished
      ensures |reqs[rid].outputIds| > 0 && IsLast(reqs, rid, reqs[rid].outputIds[|reqs[rid].outputIds| - 1])
    {
      assert Tracked(rid, QUIET, {});
    }

    // ----- Launching a batch -----

    /** The slots of a launched batch: entry `j` of the record stands for `batch[j]`. */
    ghost predicate Reserved(fi: FutureIndices, stamp: nat, n: nat)
      reads futureMap
    {
      && futureMap.futureLimit > 0 && fi.count == n && stamp in futureMap.sizes && futureMap.sizes[stamp] == n
      && fi.first == futureMap.Wrap(stamp) + 1 && futureMap.Live(Slot(stamp, 0))
      && (forall s | s in futureMap.stored :: s.stamp < stamp)
    }

    /** `alloc_future_indices`, and the placeholders `-indices` for `batch.output_ids`. */
    method Reserve(n: nat) returns (fi: FutureIndices, outs: seq<int>, ghost stamp: nat)
      requires Buffers() && futureMap.Valid() && 0 < n <= futureMap.maxRunning
      modifies futureMap`futureCt, futureMap`total, futureMap`sizes
      ensures futureMap.Valid() && Reserved(fi, stamp, n) && stamp == old(futureMap.total)
      ensures futureMap.total == stamp + n
      ensures outs == Placeholders(fi, n)
    {
      hide FutureMap.Index, FutureMap.Wrap;
      StoredBefore();
      stamp := futureMap.total;
      fi := futureMap.AllocFutureIndices(n);
      FirstIndex(fi, stamp);
      outs := Placeholders(fi, n);
    }

    lemma StoredBefore()
      requires futureMap.Valid()
      ensures forall s | s in futureMap.stored :: s.stamp < futureMap.total
    {
    }

    lemma FirstIndex(fi: FutureIndices, stamp: nat)
      requires futureMap.futureLimit > 0 && fi.first + 0 == futureMap.Index(Slot(stamp, 0))
      ensures fi.first == futureMap.Wrap(stamp) + 1
    {
    }

    /** `run_forward_async` of a decode batch: the batch is the running batch, so its placeholders
        go to `outputIds`.  Every request's forward pass consumes the token sampled last. */
    method RunForwardDecode(inputIds: seq<int>, usesPlaceholder: bool) returns (fi: FutureIndices, ghost stamp: nat)
      requires Buffers() && Inv(QUIET, Pending()) && futureMap.Valid() && |inputIds| == |running|
      requires 0 < |running| <= futureMap.maxRunning
      requires usesPlaceholder ==> PlaceholdersOk(reqs, inputIds, running, slots) && LiveEnough()
      requires !usesPlaceholder ==> forall i | 0 <= i < |running| :: IsLast(reqs, running[i], inputIds[i])
      modifies futureMap`futureCt, futureMap`total, futureMap`sizes, this`outputIds, this`slots, this`kv
      ensures Inv(Phase(Elements(running), {}), Pending()) && futureMap.Valid() && Reserved(fi, stamp, |running|)
      ensures outputIds == Some(Placeholders(fi, |running|)) && slots == SlotsOf(stamp, |running|)
      ensures stamp == old(futureMap.total) && futureMap.total == stamp + |running|
      ensures forall rid | rid in running && rid in reqs && !reqs[rid].finished ::
        rid in kv && rid in old(kv) && |kv[rid]| > 0 && kv[rid][..|kv[rid]| - 1] == old(kv)[rid]
            && IsLast(reqs, rid, kv[rid][|kv[rid]| - 1])
    {
      hide Inv, PlaceholdersOk, Reserved, FutureMap.Valid;
      var outs;
      fi, outs, stamp := Reserve(|running|);
      var resolved := ResolveInputs(inputIds, usesPlaceholder, |running|);
      outputIds := Some(outs);
      slots := SlotsOf(stamp, |running|);
      ConsumeTokens(resolved);
    }

    ghost predicate LiveEnough()
      reads this`running, this`slots, futureMap`total
    {
      forall s | s in slots :: futureMap.total + |running| <= s.stamp + futureMap.futureLimit
    }

    /** Resolution on the forward stream, before the forward pass. */
    method ResolveInputs(inputIds: seq<int>, usesPlaceholder: bool, n: nat) returns (resolved: seq<int>)
      requires futureMap.Valid() && |inputIds| == |running| == n
      requires usesPlaceholder ==> PlaceholdersOk(reqs, inputIds, running, slots) && forall s | s in slots ::
          futureMap.Live(s)
      requires !usesPlaceholder ==> forall i | 0 <= i < |running| :: IsLast(reqs, running[i], inputIds[i])
      ensures |resolved| == |running| && forall i | 0 <= i < |running| :: IsLastIfLive(reqs, running[i], resolved[i])
    {
      hide IsLast, FutureMap.Index, FutureMap.Wrap;
      if usesPlaceholder {
        var ids := new int[|inputIds|](i requires 0 <= i < |inputIds| => inputIds[i]);
        futureMap.ResolveFutureInputIds(ids, true);
        forall i | 0 <= i < |running|
          ensures IsLastIfLive(reqs, running[i], ids[i])
        {
          assert slots[i] in slots && slots[i] in futureMap.stored;
          futureMap.PlaceholderResolves(slots[i]);
        }
        resolved := ids[..];
      } else {
        resolved := inputIds;
      }
    }

    /** The decode forward pass: every request's cache grows by its input token. */
    method ConsumeTokens(inputIds: seq<int>)
      requires Inv(QUIET, Pending()) && |inputIds| == |running|
      requires forall i | 0 <= i < |running| :: IsLastIfLive(reqs, running[i], inputIds[i])
      modifies this`kv
      ensures Inv(Phase(Elements(running), {}), Pending())
      ensures forall rid | rid in running && rid in reqs && !reqs[rid].finished ::
        rid in kv && rid in old(kv) && |kv[rid]| > 0 && kv[rid][..|kv[rid]| - 1] == old(kv)[rid]
            && IsLast(reqs, rid, kv[rid][|kv[rid]| - 1])
    {
      hide Generated, Token, OutputOk, IsLast;
      ghost var before := kv;
      forall k | 0 <= k < |running|
        ensures running[k] in kv
      {
        assert Tracked(running[k], QUIET, Pending());
      }
      for i := 0 to |running|
        invariant forall k | i <= k < |running| ::
            running[k] in before && running[k] in kv && kv[running[k]] == before[running[k]]
        invariant forall k | 0 <= k < i ::
            running[k] in before && running[k] in kv && kv[running[k]] == before[running[k]] + [inputIds[k]]
      {
        kv := kv[running[i] := kv[running[i]] + [inputIds[i]]];
      }
      forall rid | rid in running
        ensures Tracked(rid, Phase(Elements(running), {}), Pending())
        ensures !reqs[rid].finished ==>
            |kv[rid]| > 0 && kv[rid][..|kv[rid]| - 1] == before[rid] && IsLast(reqs, rid, kv[rid][|kv[rid]| - 1])
      {
        var k: nat :| k < |running| && running[k] == rid;
        assert old(Tracked(rid, QUIET, Pending()));
        assert IsLastIfLive(reqs, rid, inputIds[k]);
        if !reqs[rid].finished {
          OneMoreToken(rid, inputIds[k]);
          assert kv[rid] == before[rid] + [inputIds[k]];
        }
      }
    }

    lemma OneMoreToken(rid: Rid, token: int)
      requires IsLast(reqs, rid, token)
      ensures sampled[rid] >= 1
      ensures Generated(world, rid, reqs[rid].prompt, sampled[rid])
          == Generated(world, rid, reqs[rid].prompt, sampled[rid] - 1) + [token]
    {
    }

    /** `run_forward_async` of an extend batch: the whole token strings are consumed. */
    method RunForwardExtend(admit: seq<Rid>) returns (fi: FutureIndices, outs: seq<int>, ghost stamp: nat)
      requires Buffers() && Inv(Phase({}, Elements(admit)), Pending()) && futureMap.Valid()
      requires 0 < |admit| <= futureMap.maxRunning && Distinct(admit) && forall rid | rid in admit :: rid in running
      modifies futureMap`futureCt, futureMap`total, futureMap`sizes, this`kv
      ensures Inv(Phase(Elements(admit), {}), Pending()) && futureMap.Valid() && Reserved(fi, stamp, |admit|)
      ensures outs == Placeholders(fi, |admit|) && stamp == old(futureMap.total) && futureMap.total == stamp + |admit|
    {
      hide Inv, Reserved, FutureMap.Valid;
      fi, outs, stamp := Reserve(|admit|);
      ConsumePrompts(admit);
    }

    method ConsumePrompts(admit: seq<Rid>)
      requires Inv(Phase({}, Elements(admit)), Pending()) && Distinct(admit)
      requires forall rid | rid in admit :: rid in running
      modifies this`kv
      ensures Inv(Phase(Elements(admit), {}), Pending())
    {
      hide Token, OutputOk, Stops;
      var ph := Phase({}, Elements(admit));
      forall rid | rid in admit
        ensures rid in reqs && reqs[rid].outputIds == []
      {
        assert Tracked(rid, ph, Pending());
      }
      for i := 0 to |admit|
        invariant forall k | 0 <= k < i :: admit[k] in kv && kv[admit[k]] == reqs[admit[k]].prompt
        invariant forall rid | rid !in admit ::
            (rid in kv <==> rid in old(kv)) && (rid in kv ==> kv[rid] == old(kv)[rid])
      {
        kv := kv[admit[i] := reqs[admit[i]].prompt + reqs[admit[i]].outputIds];
      }
      forall rid | rid in running
        ensures Tracked(rid, Phase(Elements(admit), {}), Pending())
      {
        assert old(Tracked(rid, ph, Pending()));
        if rid in admit {
          assert Generated(world, rid, reqs[rid].prompt, 0) == [];
        }
      }
    }

    /** `_propagate_future_to_running_batch`: entries of requests in the batch come from the batch,
        the others keep their old placeholder; without old placeholders there are none. */
    method PropagateFuture(ghost base: seq<Rid>, batch: seq<Rid>, outs: seq<int>, ghost stamp: nat)
      requires running == base + batch && Distinct(running) && |outs| == |batch| > 0
      requires outputIds.Some? ==> |outputIds.value| == |base| == |slots|
      requires base == [] ==> outputIds == None
      modifies this`outputIds, this`slots
      ensures outputIds.Some? <==> base == [] || old(outputIds.Some?)
      ensures outputIds.Some? ==>
        && outputIds.value == (if base == [] then [] else old(outputIds.value)) + outs
        && slots == (if base == [] then [] else old(slots)) + SlotsOf(stamp, |batch|)
    {
      var before := outputIds;
      var idx := [];
      for i := 0 to |running|
        invariant outputIds == before && slots == old(slots)
        invariant |idx| == i && forall k | 0 <= k < i :: idx[k] == if k < |base| then -1 else k - |base|
      {
        var at := Find(batch, running[i]);
        DistinctParts(base, batch, i);
        idx := idx + [at];
      }
      assert base != [] ==> idx[0] < 0;
      var missing := if before.None? then exists k :: 0 <= k < |idx| && idx[k] < 0
                     else exists k :: 0 <= k < |idx| && idx[k] < 0 && k >= |before.value|;
      if missing {
        outputIds := None;
        return;
      }
      var merged: seq<int> := [];
      for i := 0 to |running|
        invariant slots == old(slots)
        invariant |merged| == i
        invariant forall k | 0 <= k < i :: merged[k] == if k < |base| then before.value[k] else outs[k - |base|]
        invariant base != [] ==> before.Some?
      {
        merged := merged + [if idx[i] >= 0 then outs[idx[i]] else before.value[i]];
      }
      outputIds := Some(merged);
      slots := (if base == [] then [] else slots) + SlotsOf(stamp, |batch|);
      assert outputIds.value == (if base == [] then [] else before.value) + outs;
    }

    static lemma DistinctParts(base: seq<Rid>, batch: seq<Rid>, i: nat)
      requires Distinct(base + batch) && i < |base + batch|
      ensures i < |base| ==> (base + batch)[i] !in batch
      ensures i >= |base| ==> (base + batch)[i] == batch[i - |base|] && forall k | 0 <= k < |batch|
          && batch[k] == (base + batch)[i] :: k == i - |base|
    {
      forall k | 0 <= k < |batch| && batch[k] == (base + batch)[i]
        ensures k == i - |base|
      {
        assert (base + batch)[|base| + k] == batch[k];
      }
    }

    /** Position of a request in a batch, or -1. */
    static function Find(batch: seq<Rid>, rid: Rid): (r: int)
      ensures -1 <= r < |batch| && (r >= 0 ==> batch[r] == rid) && (r < 0 ==> rid !in batch)
    {
      if batch == [] then -1
      else if batch[|batch| - 1] == rid then |batch| - 1
      else Find(batch[..|batch| - 1], rid)
    }

    // ----- Sampling -----

    /** Between launch and sampling: each placeholder belongs to its request; its token is stored,
        or will be stored with this batch. */
    ghost predicate LaunchedOk(batch: seq<Rid>, stamp: nat)
      requires futureMap.futureLimit > 0
      reads this`reqs, this`sampled, this`running, this`outputIds, this`slots, futureMap`stored
    {
      outputIds.Some? ==>
        && |outputIds.value| == |running| == |slots|
        && forall i | 0 <= i < |running| ::
             && outputIds.value[i] == -(futureMap.Index(slots[i]) as int)
             && (if slots[i].stamp == stamp then slots[i].offset < |batch| && batch[slots[i].offset] == running[i]
                 else (
                   && slots[i] in futureMap.stored && running[i] !in batch
                   && IsLastIfLive(reqs, running[i], futureMap.stored[slots[i]])))
    }

    /** `run_sample_async`: sample, store, copy to the pinned buffer, enqueue. */
    method RunSample(batch: seq<Rid>, fi: FutureIndices, ghost stamp: nat)
      requires Buffers() && Inv(Phase(Elements(batch), {}), {}) && resultQueue == [] && futureMap.Valid()
      requires Reserved(fi, stamp, |batch|) && LaunchedOk(batch, stamp)
      requires Distinct(batch) && |batch| <= futureMap.maxRunning && forall rid | rid in batch :: rid in running
      modifies this`resultQueue, this`sampled, futureMap`stored, futureMap`log, futureMap.tokenIdsBuf, cpuNextTokenIds
      ensures Valid() && resultQueue == [Record(batch, fi)]
      ensures forall i | 0 <= i < |batch| :: batch[i] in kv && cpuNextTokenIds[i] == world.next(batch[i], kv[batch[i]])
    {
      hide Inv, IsLastIfLive, FutureMap.Index, FutureMap.Wrap, FutureMap.Valid, PlaceholdersOk;
      BatchCached(batch);
      var nextTokens := Sample(batch);
      futureMap.StoreToMap(fi, nextTokens, stamp);
      assert LaunchedOk(batch, stamp);
      forall i | 0 <= i < |nextTokens| {
        cpuNextTokenIds[i] := nextTokens[i];
      }
      resultQueue := resultQueue + [Record(batch, fi)];
      CountSampled(batch, nextTokens, stamp);
    }

    lemma BatchCached(batch: seq<Rid>)
      requires Inv(Phase(Elements(batch), {}), {}) && forall rid | rid in batch :: rid in running
      ensures forall rid | rid in batch :: rid in kv
    {
      forall rid | rid in batch
        ensures rid in kv
      {
        assert Tracked(rid, Phase(Elements(batch), {}), {});
      }
    }

    method Sample(batch: seq<Rid>) returns (tokens: seq<int>)
      requires forall rid | rid in batch :: rid in kv
      ensures |tokens| == |batch| && forall i | 0 <= i < |batch| :: tokens[i] == world.next(batch[i], kv[batch[i]])
    {
      tokens := [];
      for i := 0 to |batch|
        invariant |tokens| == i && forall k | 0 <= k < i :: tokens[k] == world.next(batch[k], kv[batch[k]])
      {
        tokens := tokens + [world.next(batch[i], kv[batch[i]])];
      }
    }

    /** The batch's requests have one more sampled token, which is pending. */
    ghost method CountSampled(batch: seq<Rid>, tokens: seq<int>, stamp: nat)
      requires Inv(Phase(Elements(batch), {}), {}) && Distinct(batch) && (forall rid | rid in batch :: rid in running)
      requires |tokens| == |batch|
      requires forall i | 0 <= i < |batch| :: batch[i] in kv && tokens[i] == world.next(batch[i], kv[batch[i]])
      requires futureMap.futureLimit > 0 && LaunchedOk(batch, stamp)
      requires outputIds.Some? ==>
        forall j: nat | j < |batch| ::
            Slot(stamp, j) in futureMap.stored && futureMap.stored[Slot(stamp, j)] == tokens[j]
      modifies this`sampled
      ensures Inv(QUIET, Elements(batch)) && forall i | 0 <= i < |batch| :: IsLastIfLive(reqs, batch[i], tokens[i])
      ensures outputIds.Some? ==> PlaceholdersOk(reqs, outputIds.value, running, slots)
    {
      hide Generated, Token, OutputOk, Stops, FutureMap.Index, Distinct;
      ghost var ph := Phase(Elements(batch), {});
      forall rid | rid in batch
        ensures rid in sampled && rid in reqs
      {
        assert Tracked(rid, ph, {});
      }
      OneMoreFacts(sampled, batch);
      forall i | 0 <= i < |batch| && batch[i] in reqs && !reqs[batch[i]].finished
        ensures tokens[i] == Token(world, batch[i], reqs[batch[i]].prompt, sampled[batch[i]])
      {
        assert Tracked(batch[i], ph, {});
        NextIsToken(batch[i], reqs[batch[i]].prompt, sampled[batch[i]]);
      }
      sampled := OneMore(sampled, batch);
      forall rid | rid in running
        ensures Tracked(rid, QUIET, Elements(batch))
      {
        assert old(Tracked(rid, ph, {}));
      }
    }

    lemma NextIsToken(rid: Rid, prompt: seq<int>, n: nat)
      ensures world.next(rid, prompt + Generated(world, rid, prompt, n)) == Token(world, rid, prompt, n)
    {
    }

    // ----- The step -----

    /** The slots a step hands out, and which placeholders remain: the launched batch gets the next
        slots, one per request; a decode step replaces all placeholders by these, a prefill step
        keeps old ones beside them. */
    ghost predicate Launched(total: nat, held: seq<Slot>, admit: seq<Rid>)
      reads this, futureMap
    {
      && futureMap.total == total + (if resultQueue == [] then 0 else |resultQueue[0].reqs|)
      && forall s | s in Held() :: s.stamp == total || (admit != [] && s in held)
    }

    /** The slots behind the placeholders of the running batch. */
    ghost function Held(): seq<Slot>
      reads this`outputIds, this`slots
    {
      if outputIds.Some? then slots else []
    }

    /** Some live request would reach its token limit with one more token. */
    predicate NearMaxTokens()
      reads this`running, this`reqs
    {
      exists i :: 0 <= i < |running| && running[i] in reqs && var r := reqs[running[i]];
        !r.finished && r.maxTokens > 0 && |r.outputIds| + 1 >= r.maxTokens
    }

    /** The step launches its batch before the pending record is processed. */
    predicate UsesPlaceholders()
      reads this`running, this`reqs, this`outputIds
    {
      !NearMaxTokens() && |running| > 0 && outputIds.Some?
    }

    /** `step_overlap` with the set of requests the prefill budget admits.  On the placeholder
        path the batch is launched before the pending record is processed, on the conservative
        path after.  Either way the record that was pending is processed, each of its unfinished
        requests by one token; the batch launched now, the admitted requests or the running
        ones, is the only record pending afterwards; and no output deviates from what it should
        be.  The admitted requests join the running batch, those finished by then leave it, and no
        unfinished request is lost. */
    method StepOverlap(admit: seq<Rid>)
      requires Valid() && Distinct(admit) && (forall rid | rid in admit :: rid in waiting)
      requires |running| + |admit| <= futureMap.maxRunning && (outputIds.Some? ==> LiveEnough())
      modifies this, futureMap, futureMap.tokenIdsBuf, cpuNextTokenIds
      ensures Valid() && Processed(old(reqs), reqs, old(Pending()))
      ensures Launched(old(futureMap.total), old(Held()), admit) && |running| <= futureMap.maxRunning
      ensures if admit == [] && running == [] then resultQueue == []
              else |resultQueue| == 1 && resultQueue[0].reqs == if admit == [] then running else admit
      ensures Admitted(old(waiting), old(running), admit, waiting, running) && lastExtend == (admit != [])
      ensures running != [] ==> (outputIds.Some? <==> admit == [] || |running| == |admit| || old(outputIds).Some?)
      ensures var rs := if old(UsesPlaceholders()) then old(reqs) else reqs;
        forall rid :: rid in running <==> rid in admit || (rid in old(running) && rid in rs && !rs[rid].finished)
      ensures forall rid | rid in reqs && !reqs[rid].finished :: rid in waiting || rid in running
      ensures forall rid | rid in reqs :: OutputOk(world, rid, reqs[rid])
    {
      hide Inv, QueueOk, PlaceholdersOk, FutureMap.Valid, Admitted, NearMaxTokens, Launched;
      RequestsKnown();
      var canUsePlaceholder := UsesPlaceholders();
      if !canUsePlaceholder && |resultQueue| > 0 {
        ProcessQuietly();
      }
      LaunchStep(admit, canUsePlaceholder);
      OutputsOk();
    }

    /** The part of the step after the conservative processing. */
    method LaunchStep(admit: seq<Rid>, canUsePlaceholder: bool)
      requires Valid() && Distinct(admit) && (forall rid | rid in admit :: rid in waiting)
      requires |running| + |admit| <= futureMap.maxRunning
      requires if canUsePlaceholder then outputIds.Some? && LiveEnough() else resultQueue == []
      modifies this, futureMap, futureMap.tokenIdsBuf, cpuNextTokenIds
      ensures Valid() && Processed(old(reqs), reqs, old(Pending()))
      ensures Launched(old(futureMap.total), old(Held()), admit) && |running| <= futureMap.maxRunning
      ensures if admit == [] && running == [] then resultQueue == []
              else |resultQueue| == 1 && resultQueue[0].reqs == if admit == [] then running else admit
      ensures Admitted(old(waiting), old(running), admit, waiting, running) && lastExtend == (admit != [])
      ensures forall rid :: rid in running <==>
          rid in admit || (rid in old(running) && rid in old(reqs) && !old(reqs)[rid].finished)
      ensures running != [] ==> (outputIds.Some? <==> admit == [] || |running| == |admit| || old(outputIds).Some?)
    {
      hide Inv, QueueOk, FutureOk, FutureMap.Valid, Distinct, KeepsOrder, Processed;
      FilterRunning();
      JoinedParts(running, admit);
      LaunchBatch(admit, canUsePlaceholder);
    }

    /** The rest of the step: the running batch has no finished request. */
    method LaunchBatch(admit: seq<Rid>, canUsePlaceholder: bool)
      requires Valid() && Distinct(admit) && (forall rid | rid in admit :: rid in waiting)
      requires |running| + |admit| <= futureMap.maxRunning
      requires forall rid | rid in running :: rid in reqs && !reqs[rid].finished
      requires if canUsePlaceholder then running != [] ==> outputIds.Some? && LiveEnough() else resultQueue == []
      modifies this, futureMap, futureMap.tokenIdsBuf, cpuNextTokenIds
      ensures Valid() && Processed(old(reqs), reqs, old(Pending()))
      ensures Launched(old(futureMap.total), old(Held()), admit) && running == old(running) + admit
      ensures if admit == [] && running == [] then resultQueue == []
              else |resultQueue| == 1 && resultQueue[0].reqs == if admit == [] then running else admit
      ensures KeepsOrder(old(waiting), waiting) && lastExtend == (admit != [])
      ensures forall rid :: rid in waiting <==> rid in old(waiting) && rid !in admit
      ensures running != [] ==> (outputIds.Some? <==> admit == [] || old(running) == [] || old(outputIds).Some?)
    {
      hide Inv, QueueOk, FutureOk, FutureMap.Valid, Distinct, KeepsOrder, Processed, LiveEnough;
      QueueStands();
      assert running + [] == running;
      if admit != [] {
        StepExtend(admit, canUsePlaceholder);
      } else if |running| > 0 {
        StepDecode(canUsePlaceholder);
      } else {
        if |resultQueue| > 0 {
          ProcessQuietly();
        } else {
          NoneProcessed(reqs);
        }
        SlotsMatch();
        lastExtend := false;
      }
    }

    lemma OutputsOk()
      requires Valid()
      ensures |resultQueue| <= 1 && forall rid | rid in reqs :: OutputOk(world, rid, reqs[rid])
      ensures forall rid | rid in reqs && !reqs[rid].finished :: rid in waiting || rid in running
    {
    }

    method ProcessQuietly()
      requires Valid() && resultQueue != []
      modifies this`reqs, this`resultQueue
      ensures Valid() && resultQueue == [] && Processed(old(reqs), reqs, old(Pending()))
    {
      hide Inv, QueueOk, PlaceholdersOk, FutureMap.Valid;
      LimitPositive();
      ProcessPending(QUIET);
      if outputIds.Some? {
        PlaceholdersStay(old(reqs), reqs, outputIds.value, running, slots);
      }
    }

    /** A prefill step. */
    method StepExtend(admit: seq<Rid>, canUsePlaceholder: bool)
      requires Valid() && admit != [] && Distinct(admit) && (forall rid | rid in admit :: rid in waiting)
      requires |running| + |admit| <= futureMap.maxRunning && (!canUsePlaceholder ==> resultQueue == [])
      modifies this, futureMap, futureMap.tokenIdsBuf, cpuNextTokenIds
      ensures Valid() && Processed(old(reqs), reqs, old(Pending()))
      ensures running == old(running) + admit && |resultQueue| == 1 && resultQueue[0].reqs == admit
      ensures lastExtend && (outputIds.Some? <==> old(running) == [] || old(outputIds).Some?)
      ensures KeepsOrder(old(waiting), waiting)
      ensures forall rid :: rid in waiting <==> rid in old(waiting) && rid !in admit
      ensures Launched(old(futureMap.total), old(Held()), admit)
    {
      hide Inv, FutureMap.Valid, FutureOk, QueueOk, LaunchedOk, Reserved, Distinct, IsLast, KeepsOrder;
      var fi;
      ghost var stamp;
      fi, stamp := ExtendUntilSample(admit, canUsePlaceholder);
      AdmittedDistinct(admit);
      RunSample(admit, fi, stamp);
      lastExtend := true;
    }

    /** Everything of a prefill step before its sampling: two prefill steps in a row do not overlap. */
    method ExtendUntilSample(admit: seq<Rid>, canUsePlaceholder: bool) returns (fi: FutureIndices, ghost stamp: nat)
      requires Valid() && admit != [] && Distinct(admit) && (forall rid | rid in admit :: rid in waiting)
      requires |running| + |admit| <= futureMap.maxRunning && (!canUsePlaceholder ==> resultQueue == [])
      modifies this`reqs, this`waiting, this`running, this`outputIds, this`sampled, this`slots, this`kv,
          this`resultQueue
      modifies futureMap`futureCt, futureMap`total, futureMap`sizes
      ensures Buffers() && Inv(Phase(Elements(admit), {}), {}) && resultQueue == [] && futureMap.Valid()
      ensures Reserved(fi, stamp, |admit|) && LaunchedOk(admit, stamp)
      ensures outputIds.Some? <==> old(running) == [] || old(outputIds).Some?
      ensures Processed(old(reqs), reqs, old(Pending())) && running == old(running) + admit
      ensures KeepsOrder(old(waiting), waiting)
      ensures forall rid :: rid in waiting <==> rid in old(waiting) && rid !in admit
      ensures stamp == old(futureMap.total) && futureMap.total == stamp + |admit|
      ensures outputIds.Some? ==> forall s | s in slots :: s.stamp == stamp || (old(outputIds.Some?) && s in old(slots))
    {
      hide Inv, QueueOk, PlaceholdersOk, FutureMap.Valid, LaunchedOk, Reserved, Distinct, IsLast, Placeholders, SlotsOf,
        FutureMap.Index, FutureMap.Wrap, KeepsOrder;
      ghost var base := running;
      LimitPositive();
      RunningDistinct(admit);
      ScheduleExtend(admit);
      var disableOverlap := lastExtend;
      ghost var rs := reqs;
      if disableOverlap && |resultQueue| > 0 {
        ProcessPending(Phase({}, Elements(admit)));
      }
      if outputIds.Some? {
        PlaceholdersStay(rs, reqs, outputIds.value, base, slots);
      }
      ghost var outs0, sl0, rs1 := outputIds, slots, reqs;
      var outs;
      fi, outs, stamp := RunForwardExtend(admit);
      PropagateFuture(base, admit, outs, stamp);
      if outputIds.Some? {
        MergedSlots(slots, if base == [] then [] else sl0, stamp, |admit|);
      }
      if canUsePlaceholder && !disableOverlap && |resultQueue| > 0 {
        ProcessPending(Phase(Elements(admit), {}));
      }
      if outs0.Some? {
        PlaceholdersStay(rs1, reqs, outs0.value, base, sl0);
      }
      ExtendLaunched(base, admit, fi, stamp, outs0, sl0);
    }

    lemma AdmittedDistinct(admit: seq<Rid>)
      requires |admit| <= |running| && running[|running| - |admit|..] == admit
      ensures forall rid | rid in admit :: rid in running
    {
    }

    lemma SlotsMatch()
      requires Valid()
      ensures outputIds.Some? ==> |slots| == |running|
    {
    }

    static lemma MergedSlots(merged: seq<Slot>, kept: seq<Slot>, stamp: nat, n: nat)
      requires merged == kept + SlotsOf(stamp, n)
      ensures forall s | s in merged :: s.stamp == stamp || s in kept
    {
    }

    static lemma JoinedParts(base: seq<Rid>, admit: seq<Rid>)
      ensures (base + admit)[..|base|] == base && (base + admit)[|base|..] == admit && base + [] == base
    {
    }

    lemma QueueStands()
      requires Valid()
      ensures KeepsOrder(waiting, waiting)
    {
    }

    lemma BatchDistinct()
      requires Inv(QUIET, Pending())
      ensures Distinct(running)
    {
    }

    lemma LimitPositive()
      requires futureMap.Valid()
      ensures futureMap.futureLimit > 0
    {
    }

    lemma RunningDistinct(admit: seq<Rid>)
      requires Inv(QUIET, Pending()) && Distinct(admit) && forall rid | rid in admit :: rid in waiting
      ensures Distinct(running + admit)
    {
      ConcatDistinct(running, admit);
    }

    lemma IndexOfSlot(stamp: nat)
      requires futureMap.futureLimit > 0
      ensures forall j: nat :: futureMap.Index(Slot(stamp, j)) == futureMap.Wrap(stamp) + 1 + j
    {
    }

    /** After propagation every placeholder belongs to its request. */
    lemma ExtendLaunched(base: seq<Rid>, admit: seq<Rid>, fi: FutureIndices, stamp: nat, outs0: Option<seq<int>>,
        sl0: seq<Slot>)
      requires running == base + admit && Distinct(running) && Reserved(fi, stamp, |admit|)
      requires outs0.Some? ==> PlaceholdersOk(reqs, outs0.value, base, sl0)
      requires outputIds.Some? <==> base == [] || outs0.Some?
      requires base == [] ==> outs0 == None
      requires outputIds.Some? ==>
        && outputIds.value == (if base == [] then [] else outs0.value) + Placeholders(fi, |admit|)
        && slots == (if base == [] then [] else sl0) + SlotsOf(stamp, |admit|)
      ensures LaunchedOk(admit, stamp)
    {
      hide Distinct, FutureMap.Index, FutureMap.Wrap, IsLastIfLive;
      IndexOfSlot(stamp);
      if outputIds.Some? {
        forall i: nat | i < |running|
          ensures outputIds.value[i] == -(futureMap.Index(slots[i]) as int)
          ensures if slots[i].stamp == stamp then slots[i].offset < |admit| && admit[slots[i].offset] == running[i]
                  else (
                    && slots[i] in futureMap.stored && running[i] !in admit
                    && IsLastIfLive(reqs, running[i], futureMap.stored[slots[i]]))
        {
          DistinctParts(base, admit, i);
        }
      }
    }

    /** A decode step. */
    method StepDecode(canUsePlaceholder: bool)
      requires Valid() && 0 < |running| <= futureMap.maxRunning
      requires (forall rid | rid in running :: rid in reqs && !reqs[rid].finished)
      requires if canUsePlaceholder then outputIds.Some? && LiveEnough() else resultQueue == []
      modifies this, futureMap, futureMap.tokenIdsBuf, cpuNextTokenIds
      ensures Valid() && Processed(old(reqs), reqs, old(Pending()))
      ensures running == old(running) && waiting == old(waiting) && outputIds.Some? && !lastExtend
      ensures |resultQueue| == 1 && resultQueue[0].reqs == running
      ensures Launched(old(futureMap.total), old(Held()), [])
    {
      hide Inv, QueueOk, PlaceholdersOk, FutureMap.Valid, LaunchedOk, Reserved, Distinct, IsLast, Placeholders,
           SlotsOf, FutureMap.Index, FutureMap.Wrap;
      BatchDistinct();
      var inputIds := ScheduleDecode(canUsePlaceholder);
      var fi;
      ghost var stamp;
      fi, stamp := RunForwardDecode(inputIds, canUsePlaceholder);
      if canUsePlaceholder && |resultQueue| > 0 {
        ProcessPending(Phase(Elements(running), {}));
      }
      DecodeLaunched(fi, stamp);
      RunSample(running, fi, stamp);
      lastExtend := false;
    }

    lemma DecodeLaunched(fi: FutureIndices, stamp: nat)
      requires Reserved(fi, stamp, |running|)
      requires outputIds == Some(Placeholders(fi, |running|)) && slots == SlotsOf(stamp, |running|)
      ensures LaunchedOk(running, stamp)
    {
    }

    // ----- The synchronous loop -----

    /** `step`: schedule, forward, sample and process, one after the other. */
    method StepSync(admit: seq<Rid>)
      requires Valid() && resultQueue == [] && outputIds == None && Distinct(admit)
      requires forall rid | rid in admit :: rid in waiting
      modifies this
      ensures Valid() && resultQueue == [] && outputIds == None
      ensures Processed(old(reqs), reqs, Elements(if admit == [] then running else admit))
      ensures Admitted(old(waiting), old(running), admit, waiting, running)
      ensures forall rid :: rid in running <==>
          rid in admit || (rid in old(running) && rid in old(reqs) && !old(reqs)[rid].finished)
      ensures forall rid | rid in reqs && !reqs[rid].finished :: rid in waiting || rid in running
      ensures forall rid | rid in reqs :: OutputOk(world, rid, reqs[rid])
    {
      hide Inv, QueueOk, FutureMap.Valid, Before;
      QueueStands();
      FilterRunning();
      JoinedParts(running, admit);
      if admit != [] {
        RunningDistinct(admit);
        ScheduleExtend(admit);
        ConsumePrompts(admit);
        SampleAndProcess(admit);
      } else if |running| > 0 {
        BatchDistinct();
        var inputIds := ScheduleDecode(false);
        ConsumeTokens(inputIds);
        SampleAndProcess(running);
      }
      OutputsOk();
    }

    method SampleAndProcess(batch: seq<Rid>)
      requires Buffers() && FutureOk(running) && resultQueue == [] && outputIds == None
      requires Inv(Phase(Elements(batch), {}), {}) && Distinct(batch) && forall rid | rid in batch :: rid in running
      modifies this`sampled, this`reqs
      ensures Valid() && Processed(old(reqs), reqs, Elements(batch))
    {
      hide Inv, FutureMap.Valid;
      LimitPositive();
      BatchCached(batch);
      var nextTokens := Sample(batch);
      CountSampled(batch, nextTokens, 0);
      ProcessStepResult(batch, nextTokens, QUIET);
    }
  }

  /** Which requests are between launch and sampling. */
  datatype Phase = Phase(ahead: set<Rid>, newly: set<Rid>)
  const QUIET := Phase({}, {})

  ghost predicate Progress(rs: map<Rid, Req>, rs': map<Rid, Req>) {
    && rs'.Keys == rs.Keys
    && forall rid | rid in rs ::
         && rs'[rid].prompt == rs[rid].prompt && rs'[rid].maxTokens == rs[rid].maxTokens
              && rs'[rid].ignoreEos == rs[rid].ignoreEos
         && (rs[rid].finished ==> rs'[rid] == rs[rid])
  }

  /** Exactly the unfinished requests of `batch` got one more output token. */
  ghost predicate Processed(rs: map<Rid, Req>, rs': map<Rid, Req>, batch: set<Rid>) {
    && Progress(rs, rs')
    && forall rid | rid in rs ::
         if rid in batch && !rs[rid].finished then |rs'[rid].outputIds| == |rs[rid].outputIds| + 1
             else rs'[rid] == rs[rid]
  }

  lemma NoneProcessed(rs: map<Rid, Req>)
    ensures Processed(rs, rs, {})
  {
  }

  /** The positions below `k` of unfinished requests. */
  function KeepIndices(rids: seq<Rid>, reqs: map<Rid, Req>, k: nat): (r: seq<nat>)
    requires k <= |rids| && forall rid | rid in rids :: rid in reqs
    ensures |r| <= k && (forall j | 0 <= j < |r| :: r[j] < k && !reqs[rids[r[j]]].finished)
    ensures forall i, j | 0 <= i < j < |r| :: r[i] < r[j]
    ensures forall i: nat | i < k && !reqs[rids[i]].finished :: i in r
  {
    if k == 0 then []
    else if !reqs[rids[k - 1]].finished then KeepIndices(rids, reqs, k - 1) + [k - 1]
    else KeepIndices(rids, reqs, k - 1)
  }

  /** As many ascending positions below `k` as there are: all of them. */
  lemma {:induction false} RisingAll(r: seq<nat>, k: nat)
    requires |r| == k && forall j | 0 <= j < k :: r[j] < k
    requires forall i, j | 0 <= i < j < k :: r[i] < r[j]
    ensures forall j | 0 <= j < k :: r[j] == j
  {
    if k > 1 {
      assert forall j | 0 <= j < k - 1 :: r[j] < r[k - 1];
      RisingAll(r[..k - 1], k - 1);
      assert r[k - 2] == r[..k - 1][k - 2] == k - 2;
      assert forall j | 0 <= j < k - 1 :: r[j] == r[..k - 1][j];
    }
  }

  lemma GatherAll<T>(s: seq<T>, idx: seq<nat>)
    requires |idx| == |s| && forall j | 0 <= j < |idx| :: idx[j] == j
    ensures Gather(s, idx) == s
  {
  }

  /** Indexing a tensor with an index tensor. */
  function Gather<T>(s: seq<T>, idx: seq<nat>): (r: seq<T>)
    requires forall j | 0 <= j < |idx| :: idx[j] < |s|
    ensures |r| == |idx| && forall j | 0 <= j < |r| :: r[j] == s[idx[j]]
  {
    if idx == [] then [] else [s[idx[0]]] + Gather(s, idx[1..])
  }

  /** The queues after admission: the admitted requests left the waiting queue and joined at the end of
      the running batch, and both otherwise keep their order. */
  ghost predicate Admitted(
    waitingWas: seq<Rid>, runningWas: seq<Rid>, admit: seq<Rid>, waiting: seq<Rid>, running: seq<Rid>)
  {
    && KeepsOrder(waitingWas, waiting) && (forall rid :: rid in waiting <==> rid in waitingWas && rid !in admit)
    && |admit| <= |running| && running[|running| - |admit|..] == admit
    && KeepsOrder(runningWas, running[..|running| - |admit|])
  }

  /** `x` comes before `y`. */
  ghost predicate Before(s: seq<Rid>, x: Rid, y: Rid) {
    exists i, j :: 0 <= i < j < |s| && s[i] == x && s[j] == y
  }

  /** What is left of a queue still stands in the old order. */
  ghost predicate KeepsOrder(was: seq<Rid>, now: seq<Rid>) {
    Distinct(now) && forall x, y | Before(now, x, y) :: Before(was, x, y)
  }

  lemma GatherDistinct(s: seq<Rid>, idx: seq<nat>)
    requires Distinct(s) && (forall j | 0 <= j < |idx| :: idx[j] < |s|)
    requires forall i, j | 0 <= i < j < |idx| :: idx[i] < idx[j]
    ensures KeepsOrder(s, Gather(s, idx)) && forall x | x in Gather(s, idx) :: x in s
  {
    forall x, y | Before(Gather(s, idx), x, y)
      ensures Before(s, x, y)
    {
      var i, j :| 0 <= i < j < |idx| && Gather(s, idx)[i] == x && Gather(s, idx)[j] == y;
      assert s[idx[i]] == x && s[idx[j]] == y;
    }
  }

  lemma ConcatDistinct(a: seq<Rid>, b: seq<Rid>)
    requires Distinct(a) && Distinct(b) && forall x | x in b :: x !in a
    ensures Distinct(a + b)
  {
    forall i, j | 0 <= i < j < |a + b|
      ensures (a + b)[i] != (a + b)[j]
    {
      if i < |a| <= j {
        assert a[i] in a && b[j - |a|] in b;
      }
    }
  }

  lemma KeptUnfinished(rids: seq<Rid>, reqs: map<Rid, Req>)
    requires forall rid | rid in rids :: rid in reqs
    ensures forall rid | rid in Gather(rids, KeepIndices(rids, reqs, |rids|)) :: rid in reqs && !reqs[rid].finished
  {
  }

  /** `-future_indices.indices`. */
  function Placeholders(fi: FutureIndices, n: nat): (r: seq<int>)
    ensures |r| == n && forall j | 0 <= j < n :: r[j] == -((fi.first + j) as int)
  {
    if n == 0 then [] else Placeholders(fi, n - 1) + [-((fi.first + n - 1) as int)]
  }

  ghost function SlotsOf(stamp: nat, n: nat): (r: seq<Slot>)
    ensures |r| == n && forall j | 0 <= j < n :: r[j] == Slot(stamp, j)
  {
    if n == 0 then [] else SlotsOf(stamp, n - 1) + [Slot(stamp, n - 1)]
  }

  /** A ghost counter starts at zero for the listed requests. */
  ghost function ZeroFor(m: map<Rid, nat>, rids: seq<Rid>): map<Rid, nat> {
    if rids == [] then m else ZeroFor(m, rids[1..])[rids[0] := 0]
  }

  lemma {:induction false} ZeroForFacts(m: map<Rid, nat>, rids: seq<Rid>)
    ensures forall rid | rid in rids :: rid in ZeroFor(m, rids) && ZeroFor(m, rids)[rid] == 0
    ensures forall rid | rid !in rids ::
        (rid in ZeroFor(m, rids) <==> rid in m) && (rid in m ==> ZeroFor(m, rids)[rid] == m[rid])
  {
    if rids != [] {
      ZeroForFacts(m, rids[1..]);
      assert rids == [rids[0]] + rids[1..];
    }
  }

  /** The queue without the admitted requests, in order. */
  function Without(queue: seq<Rid>, gone: seq<Rid>): seq<Rid> {
    if queue == [] then [] else (if queue[0] in gone then [] else [queue[0]]) + Without(queue[1..], gone)
  }

  lemma {:induction false} WithoutFacts(queue: seq<Rid>, gone: seq<Rid>)
    requires Distinct(queue)
    ensures forall rid :: rid in Without(queue, gone) <==> rid in queue && rid !in gone
    ensures KeepsOrder(queue, Without(queue, gone))
  {
    hide Before;
    if queue == [] {
      NoneBefore();
    } else {
      var head, tail := queue[0], queue[1..];
      WithoutFacts(tail, gone);
      assert queue == [head] + tail;
      assert head !in tail;
      var rest := Without(tail, gone);
      assert Without(queue, gone) == if head in gone then rest else [head] + rest;
      forall x, y | Before(Without(queue, gone), x, y)
        ensures Before(queue, x, y)
      {
        BeforeCons(head, tail, x, y);
        BeforeCons(head, rest, x, y);
        assert Before(rest, x, y) ==> Before(tail, x, y);
      }
    }
  }

  lemma NoneBefore()
    ensures forall x, y :: !Before([], x, y)
  {
  }

  lemma BeforeCons(head: Rid, tail: seq<Rid>, x: Rid, y: Rid)
    ensures Before([head] + tail, x, y) <==> (x == head && y in tail) || Before(tail, x, y)
  {
    var s := [head] + tail;
    if x == head && y in tail {
      var j :| 0 <= j < |tail| && tail[j] == y;
      assert s[0] == x && s[j + 1] == y;
    } else if Before(tail, x, y) {
      var i, j :| 0 <= i < j < |tail| && tail[i] == x && tail[j] == y;
      assert s[i + 1] == x && s[j + 1] == y;
    }
  }

  ghost function OneMore(m: map<Rid, nat>, rids: seq<Rid>): map<Rid, nat>
    requires forall rid | rid in rids :: rid in m
  {
    if rids == [] then m else OneMore(m[rids[0] := m[rids[0]] + 1], rids[1..])
  }

  lemma {:induction false} OneMoreFacts(m: map<Rid, nat>, rids: seq<Rid>)
    requires Distinct(rids) && forall rid | rid in rids :: rid in m
    ensures OneMore(m, rids).Keys == m.Keys
    ensures forall rid | rid in m :: OneMore(m, rids)[rid] == m[rid] + (if rid in rids then 1 else 0)
  {
    if rids != [] {
      assert rids == [rids[0]] + rids[1..];
      assert rids[0] !in rids[1..];
      OneMoreFacts(m[rids[0] := m[rids[0]] + 1], rids[1..]);
    }
  }

  /** Refinement: a request that finishes both in an engine driven by overlapped steps and in one
      driven by synchronous steps has the same output, whatever was admitted when. */
  lemma LoopsAgree(overlapped: Engine, synchronous: Engine, rid: Rid)
    requires overlapped.Valid() && synchronous.Valid() && overlapped.world == synchronous.world
    requires rid in overlapped.reqs && rid in synchronous.reqs && overlapped.reqs[rid].finished
    requires synchronous.reqs[rid].finished
    requires overlapped.reqs[rid].prompt == synchronous.reqs[rid].prompt
    requires overlapped.reqs[rid].maxTokens == synchronous.reqs[rid].maxTokens
    requires overlapped.reqs[rid].ignoreEos == synchronous.reqs[rid].ignoreEos
    ensures overlapped.reqs[rid].outputIds == synchronous.reqs[rid].outputIds
  {
    OutputsAgree(overlapped.world, rid, overlapped.reqs[rid], synchronous.reqs[rid]);
  }
}
