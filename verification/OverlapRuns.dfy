/** Whole runs of the engine.  Requests arrive between steps; at each step the admission policy wants
    some of the waiting requests, and as many of those as there is room for are prefilled, else the
    running batch decodes. */
module OverlapRuns {
  import opened Wrappers
  import opened Orders
  import opened FutureMaps
  import opened OverlapPipeline

  datatype Event = Arrive(rid: Rid, prompt: seq<int>, maxTokens: nat, ignoreEos: bool) | Step(wants: set<Rid>)

  /** The wanted requests in queue order, up to `room`. */
  function Pick(waiting: seq<Rid>, wants: set<Rid>, room: nat): (r: seq<Rid>)
    ensures |r| <= room && forall rid | rid in r :: rid in waiting && rid in wants
    ensures |r| < room ==> forall rid | rid in waiting && rid in wants :: rid in r
  {
    if waiting == [] || room == 0 then []
    else if waiting[0] in wants then [waiting[0]] + Pick(waiting[1..], wants, room - 1)
    else Pick(waiting[1..], wants, room)
  }

  lemma {:induction false} PickDistinct(waiting: seq<Rid>, wants: set<Rid>, room: nat)
    requires Distinct(waiting)
    ensures Distinct(Pick(waiting, wants, room)) && |Pick(waiting, wants, room)| <= |wants|
  {
    if waiting != [] && room > 0 {
      assert waiting[0] !in waiting[1..];
      if waiting[0] in wants {
        PickDistinct(waiting[1..], wants, room - 1);
        var rest := Pick(waiting[1..], wants, room - 1);
        assert waiting[0] !in rest;
        DistinctCard([waiting[0]] + rest);
        SubsetCard(Elements([waiting[0]] + rest), wants);
      } else {
        PickDistinct(waiting[1..], wants, room);
      }
    }
  }

  // ---- The one hypothesis --------------------------------------------------------------------

  function Wanted(e: Event): nat {
    if e.Step? then |e.wants| else 0
  }

  /** Requests the policy wants in events `i..j`. */
  function TotalWanted(events: seq<Event>, i: nat, j: nat): nat
    requires i <= j <= |events|
  {
    if i == j then 0 else TotalWanted(events, i, j - 1) + Wanted(events[j - 1])
  }

  predicate NoDecodeWanted(events: seq<Event>, i: nat, j: nat)
    requires i <= j <= |events|
  {
    forall k | i <= k < j :: events[k].Step? ==> events[k].wants != {}
  }

  predicate StretchFits(events: seq<Event>, cap: nat, i: nat, j: nat) {
    i <= j <= |events| && NoDecodeWanted(events, i, j) ==> TotalWanted(events, i, j) <= cap
  }

  /** No placeholder outlives the buffer: while prefill steps follow one another and the old
      placeholders wait, at most `cap` requests are admitted. */
  ghost predicate PlaceholdersLive(events: seq<Event>, cap: nat) {
    forall i: nat, j: nat :: StretchFits(events, cap, i, j)
  }

  lemma StretchSoFar(events: seq<Event>, cap: nat, i: nat, j: nat)
    requires PlaceholdersLive(events, cap) && i <= j <= |events| && NoDecodeWanted(events, i, j)
    ensures TotalWanted(events, i, j) <= cap
  {
    assert StretchFits(events, cap, i, j);
  }

  // ---- Runs ----------------------------------------------------------------------------------

  /** Requests stay, keep their prompt and limits, and never change once finished. */
  ghost predicate Continues(rs: map<Rid, Req>, rs': map<Rid, Req>) {
    forall rid | rid in rs ::
      && rid in rs' && rs'[rid].prompt == rs[rid].prompt && rs'[rid].maxTokens == rs[rid].maxTokens
      && rs'[rid].ignoreEos == rs[rid].ignoreEos && (rs[rid].finished ==> rs'[rid] == rs[rid])
  }

  lemma ContinuesTrans(a: map<Rid, Req>, b: map<Rid, Req>, c: map<Rid, Req>)
    requires Continues(a, b) && Continues(b, c)
    ensures Continues(a, c)
  {
  }

  /** The placeholders held were all handed out from `since` on. */
  ghost predicate HeldSince(engine: Engine, since: nat)
    reads engine`outputIds, engine`slots
  {
    engine.outputIds.Some? ==> forall s | s in engine.slots :: s.stamp >= since
  }

  // ---- Steps of a run ------------------------------------------------------------------------

  /** What a scheduler sees of an engine between steps. */
  datatype Snapshot = Snapshot(reqs: map<Rid, Req>, waiting: seq<Rid>, running: seq<Rid>, pending: seq<Rid>)

  function Seen(engine: Engine): Snapshot
    reads engine`reqs, engine`waiting, engine`running, engine`resultQueue
  {
    var pending := if engine.resultQueue == [] then [] else engine.resultQueue[0].reqs;
    Snapshot(engine.reqs, engine.waiting, engine.running, pending)
  }

  /** A request with a new id joins the end of the waiting queue; a known id changes nothing. */
  ghost predicate Arrived(a: Snapshot, e: Event, b: Snapshot)
    requires e.Arrive?
  {
    if e.rid in a.reqs then b == a
    else b == Snapshot(a.reqs[e.rid := Req(e.prompt, e.maxTokens, e.ignoreEos, [], false)], a.waiting + [e.rid],
                       a.running, a.pending)
  }

  /** An overlapped step: one token for the batch that was pending, and a batch launched, of the
      admitted requests if there are any and else of all that run. */
  ghost predicate OverlapMoved(a: Snapshot, admit: seq<Rid>, b: Snapshot) {
    && Processed(a.reqs, b.reqs, Elements(a.pending)) && b.pending == (if admit == [] then b.running else admit)
    && Admitted(a.waiting, a.running, admit, b.waiting, b.running)
    && (forall rid | rid in b.running && rid !in admit :: rid in a.running && rid in a.reqs && !a.reqs[rid].finished)
    && (forall rid | rid in a.running && rid in b.reqs && !b.reqs[rid].finished :: rid in b.running)
  }

  /** A synchronous step: one token for the admitted requests if there are any and else for all that
      run, and nothing pending. */
  ghost predicate SyncMoved(a: Snapshot, admit: seq<Rid>, b: Snapshot) {
    && Processed(a.reqs, b.reqs, Elements(if admit == [] then b.running else admit)) && b.pending == []
    && Admitted(a.waiting, a.running, admit, b.waiting, b.running)
    && (forall rid | rid in b.running && rid !in admit :: rid in a.running && rid in a.reqs && !a.reqs[rid].finished)
    && (forall rid | rid in a.running && rid in a.reqs && !a.reqs[rid].finished :: rid in b.running)
  }

  /** The two loops; up to `maxRunning` requests run in the overlapped one. */
  datatype Loop = Overlapped(maxRunning: nat) | Synchronous

  ghost predicate Moved(loop: Loop, a: Snapshot, e: Event, b: Snapshot) {
    if e.Arrive? then Arrived(a, e, b)
    else if loop.Synchronous? then SyncMoved(a, Pick(a.waiting, e.wants, |a.waiting|), b)
    else
      && |a.running| <= loop.maxRunning
      && OverlapMoved(a, Pick(a.waiting, e.wants, loop.maxRunning - |a.running|), b)
  }

  /** Every unfinished request waits or runs. */
  ghost predicate NoneLost(s: Snapshot) {
    forall rid | rid in s.reqs && !s.reqs[rid].finished :: rid in s.waiting || rid in s.running
  }

  ghost predicate EventMoved(loop: Loop, events: seq<Event>, trace: seq<Snapshot>, k: nat)
    requires k < |events| && k + 1 < |trace|
  {
    Moved(loop, trace[k], events[k], trace[k + 1]) && NoneLost(trace[k + 1])
  }

  /** Each event moved the engine from one snapshot to the next, and no request was lost. */
  ghost predicate Traced(loop: Loop, events: seq<Event>, trace: seq<Snapshot>) {
    0 < |trace| <= |events| + 1 && forall k: nat | k < |trace| - 1 :: EventMoved(loop, events, trace, k)
  }

  /** A run over all the events, from one snapshot to another. */
  ghost predicate RanFrom(start: Snapshot, loop: Loop, events: seq<Event>, trace: seq<Snapshot>, end: Snapshot) {
    |trace| == |events| + 1 && trace[0] == start && trace[|events|] == end && Traced(loop, events, trace)
  }

  const NOTHING := Snapshot(map[], [], [], [])

  lemma LongerTrace(loop: Loop, events: seq<Event>, trace: seq<Snapshot>, next: Snapshot)
    requires Traced(loop, events, trace) && |trace| <= |events|
    requires Moved(loop, trace[|trace| - 1], events[|trace| - 1], next) && NoneLost(next)
    ensures Traced(loop, events, trace + [next])
  {
    hide Moved, NoneLost;
    forall k: nat | k < |trace|
      ensures EventMoved(loop, events, trace + [next], k)
    {
      assert k < |trace| - 1 ==> EventMoved(loop, events, trace, k);
    }
  }

  method Arrival(engine: Engine, e: Event)
    requires engine.Valid() && e.Arrive?
    modifies engine`reqs, engine`waiting
    ensures engine.Valid() && Continues(old(engine.reqs), engine.reqs)
    ensures Arrived(old(Seen(engine)), e, Seen(engine))
  {
    if e.rid !in engine.reqs {
      engine.AddRequest(e.rid, e.prompt, e.maxTokens, e.ignoreEos);
    }
  }

  /** One overlapped step and the age of the placeholders it leaves. */
  method StepOnce(engine: Engine, admit: seq<Rid>, ghost since: nat)
    requires engine.Valid() && Distinct(admit) && (forall rid | rid in admit :: rid in engine.waiting)
    requires |engine.running| + |admit| <= engine.futureMap.maxRunning && HeldSince(engine, since)
    requires engine.futureMap.total + |engine.running| <= since + engine.futureMap.futureLimit
    requires since <= engine.futureMap.total
    modifies engine, engine.futureMap, engine.futureMap.tokenIdsBuf, engine.cpuNextTokenIds
    ensures engine.Valid() && Continues(old(engine.reqs), engine.reqs)
    ensures OverlapMoved(old(Seen(engine)), admit, Seen(engine))
    ensures |engine.running| <= engine.futureMap.maxRunning
    ensures HeldSince(engine, if admit == [] then old(engine.futureMap.total) else since)
    ensures old(engine.futureMap.total) <= engine.futureMap.total
    ensures engine.futureMap.total
         <= old(engine.futureMap.total) + if admit == [] then engine.futureMap.maxRunning else |admit|
  {
    hide Engine.Valid, Distinct, OutputOk, Admitted;
    assert engine.outputIds.Some? ==> engine.LiveEnough();
    engine.StepOverlap(admit);
  }

  lemma WaitingDistinct(engine: Engine)
    requires engine.Valid()
    ensures Distinct(engine.waiting)
  {
  }

  lemma AllOutputsOk(engine: Engine)
    requires engine.Valid()
    ensures |engine.resultQueue| <= 1 && NoneLost(Seen(engine))
    ensures forall rid | rid in engine.reqs :: OutputOk(engine.world, rid, engine.reqs[rid])
  {
  }

  /** Every run of overlapped steps keeps every output right and loses no request, whatever arrives and
      whatever is wanted when: each step's condition on live placeholders follows from the one
      hypothesis.  `trace` holds what was seen before, between and after the events. */
  method RunOverlapped(engine: Engine, events: seq<Event>) returns (ghost trace: seq<Snapshot>)
    requires engine.Valid() && engine.outputIds == None && |engine.running| <= engine.futureMap.maxRunning
    requires engine.futureMap.futureLimit >= 2 * engine.futureMap.maxRunning
    requires PlaceholdersLive(events, engine.futureMap.futureLimit - 2 * engine.futureMap.maxRunning)
    modifies engine, engine.futureMap, engine.futureMap.tokenIdsBuf, engine.cpuNextTokenIds
    ensures engine.Valid() && Continues(old(engine.reqs), engine.reqs) && |engine.resultQueue| <= 1
    ensures RanFrom(old(Seen(engine)), Overlapped(engine.futureMap.maxRunning), events, trace, Seen(engine))
    ensures NoneLost(Seen(engine))
    ensures forall rid | rid in engine.reqs :: OutputOk(engine.world, rid, engine.reqs[rid])
  {
    hide Engine.Valid, PlaceholdersLive, OutputOk, HeldSince, Continues, TotalWanted, NoDecodeWanted, Pick, Distinct,
         Arrived, OverlapMoved, NoneLost, EventMoved;
    trace := [Seen(engine)];
    var maxRunning, cap := engine.futureMap.maxRunning, engine.futureMap.futureLimit - 2 * engine.futureMap.maxRunning;
    ghost var from: nat, since: nat := 0, engine.futureMap.total;
    NothingYet(engine, events, since);
    for k := 0 to |events|
      invariant engine.Valid() && |engine.running| <= maxRunning && Continues(old(engine.reqs), engine.reqs)
      invariant |trace| == k + 1 && trace[0] == old(Seen(engine)) && trace[k] == Seen(engine)
      invariant Traced(Overlapped(maxRunning), events, trace)
      invariant from <= k && NoDecodeWanted(events, from, k) && HeldSince(engine, since)
      invariant since <= engine.futureMap.total <= since + maxRunning + TotalWanted(events, from, k)
    {
      ghost var rs := engine.reqs;
      StretchSoFar(events, cap, from, k);
      if events[k].Arrive? {
        Arrival(engine, events[k]);
        LongerStretch(events, from, k);
      } else {
        WaitingDistinct(engine);
        var admit := Pick(engine.waiting, events[k].wants, maxRunning - |engine.running|);
        PickDistinct(engine.waiting, events[k].wants, maxRunning - |engine.running|);
        ghost var total := engine.futureMap.total;
        StepOnce(engine, admit, since);
        if admit == [] {
          FreshStretch(events, k + 1);
          from, since := k + 1, total;
        } else {
          WantedSome(admit, events[k].wants);
          LongerStretch(events, from, k);
        }
      }
      ContinuesTrans(old(engine.reqs), rs, engine.reqs);
      AllOutputsOk(engine);
      LongerTrace(Overlapped(maxRunning), events, trace, Seen(engine));
      trace := trace + [Seen(engine)];
    }
    AllOutputsOk(engine);
  }

  lemma NothingYet(engine: Engine, events: seq<Event>, since: nat)
    requires engine.outputIds == None
    ensures HeldSince(engine, since) && Continues(engine.reqs, engine.reqs)
    ensures NoDecodeWanted(events, 0, 0) && TotalWanted(events, 0, 0) == 0
  {
  }

  lemma FreshStretch(events: seq<Event>, k: nat)
    requires k <= |events|
    ensures NoDecodeWanted(events, k, k) && TotalWanted(events, k, k) == 0
  {
  }

  lemma LongerStretch(events: seq<Event>, from: nat, k: nat)
    requires from <= k < |events| && NoDecodeWanted(events, from, k) && (events[k].Step? ==> events[k].wants != {})
    ensures NoDecodeWanted(events, from, k + 1)
    ensures TotalWanted(events, from, k + 1) == TotalWanted(events, from, k) + Wanted(events[k])
  {
  }

  lemma WantedSome(admit: seq<Rid>, wants: set<Rid>)
    requires admit != [] && forall rid | rid in admit :: rid in wants
    ensures wants != {}
  {
    assert admit[0] in wants;
  }

  /** Every run of the synchronous loop, on the same kind of events. */
  method RunSynchronous(engine: Engine, events: seq<Event>) returns (ghost trace: seq<Snapshot>)
    requires engine.Valid() && engine.resultQueue == [] && engine.outputIds == None
    modifies engine
    ensures engine.Valid() && Continues(old(engine.reqs), engine.reqs)
    ensures RanFrom(old(Seen(engine)), Synchronous, events, trace, Seen(engine)) && NoneLost(Seen(engine))
    ensures forall rid | rid in engine.reqs :: OutputOk(engine.world, rid, engine.reqs[rid])
  {
    hide Engine.Valid, OutputOk, Continues, Pick, Distinct, Processed, Arrived, Admitted, NoneLost, EventMoved;
    trace := [Seen(engine)];
    NothingYet(engine, events, 0);
    for k := 0 to |events|
      invariant engine.Valid() && engine.resultQueue == [] && engine.outputIds == None
      invariant Continues(old(engine.reqs), engine.reqs)
      invariant |trace| == k + 1 && trace[0] == old(Seen(engine)) && trace[k] == Seen(engine)
      invariant Traced(Synchronous, events, trace)
    {
      ghost var rs := engine.reqs;
      if events[k].Arrive? {
        Arrival(engine, events[k]);
      } else {
        WaitingDistinct(engine);
        var room := |engine.waiting|;
        var admit := Pick(engine.waiting, events[k].wants, room);
        PickDistinct(engine.waiting, events[k].wants, room);
        engine.StepSync(admit);
        ProcessedContinues(rs, engine.reqs, Elements(if admit == [] then engine.running else admit));
      }
      ContinuesTrans(old(engine.reqs), rs, engine.reqs);
      AllOutputsOk(engine);
      LongerTrace(Synchronous, events, trace, Seen(engine));
      trace := trace + [Seen(engine)];
    }
    AllOutputsOk(engine);
  }

  lemma ProcessedContinues(rs: map<Rid, Req>, rs': map<Rid, Req>, batch: set<Rid>)
    requires Processed(rs, rs', batch)
    ensures Continues(rs, rs')
  {
  }

  /** The pipeline produces what the synchronous loop produces: run both from a fresh engine, on any
      events each; a request with the same prompt and limits that finished in both has the same
      output, and an unfinished one a prefix of it. */
  method CompareLoops(world: World, maxRunning: nat, maxChunks: nat, events: seq<Event>, events': seq<Event>)
    returns (overlapped: Engine, synchronous: Engine, ghost trace: seq<Snapshot>, ghost trace': seq<Snapshot>)
    requires maxRunning > 0 && PlaceholdersLive(events, maxRunning * (1 + maxChunks))
    ensures overlapped.world == synchronous.world == world
    ensures RanFrom(NOTHING, Overlapped(maxRunning), events, trace, Seen(overlapped))
    ensures RanFrom(NOTHING, Synchronous, events', trace', Seen(synchronous))
    ensures forall rid | rid in overlapped.reqs && rid in synchronous.reqs && synchronous.reqs[rid].finished
              && SameRequest(overlapped.reqs[rid], synchronous.reqs[rid]) ::
              && overlapped.reqs[rid].outputIds <= synchronous.reqs[rid].outputIds
              && (overlapped.reqs[rid].finished ==> overlapped.reqs[rid].outputIds == synchronous.reqs[rid].outputIds)
  {
    hide Engine.Valid, OutputOk, PlaceholdersLive, Continues, RanFrom, NoneLost;
    Capacity(maxRunning, maxChunks);
    overlapped := new Engine(world, maxRunning, maxChunks);
    synchronous := new Engine(world, maxRunning, maxChunks);
    trace := RunOverlapped(overlapped, events);
    trace' := RunSynchronous(synchronous, events');
    forall rid | rid in overlapped.reqs && rid in synchronous.reqs && synchronous.reqs[rid].finished
      && SameRequest(overlapped.reqs[rid], synchronous.reqs[rid])
      ensures overlapped.reqs[rid].outputIds <= synchronous.reqs[rid].outputIds
      ensures overlapped.reqs[rid].finished ==> overlapped.reqs[rid].outputIds == synchronous.reqs[rid].outputIds
    {
      OutputsAgree(world, rid, overlapped.reqs[rid], synchronous.reqs[rid]);
    }
  }

  predicate SameRequest(a: Req, b: Req) {
    a.prompt == b.prompt && a.maxTokens == b.maxTokens && a.ignoreEos == b.ignoreEos
  }

  lemma Capacity(maxRunning: nat, maxChunks: nat)
    ensures maxRunning * (3 + maxChunks) - 2 * maxRunning == maxRunning * (1 + maxChunks) >= 0
  {
    assert maxRunning * (3 + maxChunks) == 2 * maxRunning + maxRunning * (1 + maxChunks);
    assert maxRunning * (1 + maxChunks) >= 0;
  }
}
