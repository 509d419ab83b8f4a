/** The Treiber stack of stack.cpp.  Every atomic access is one step of one thread; a run is
    any sequence of calls and steps of any number of threads.  Memory cells are never reused
    and steps are sequentially consistent. */
module LockFreeStack {
  import opened Linearizability

  datatype Ref = Null | At(addr: nat)
  datatype Cell = Cell(value: int, next: Ref)

  /** Where a thread is inside `push` or `pop`; `inv` is where its call is in the history. */
  datatype Local =
    | PushLoad(inv: nat, node: nat)
    | PushCas(inv: nat, node: nat)
    | PopLoad(inv: nat)
    | PopNext(inv: nat, oldHead: nat)
    | PopCas(inv: nat, oldHead: nat, next: Ref)
    | PopValue(inv: nat, oldHead: nat)
    | Done(inv: nat, ret: Ret)

  datatype State = State(mem: seq<Cell>, head: Ref, threads: map<Tid, Local>, history: History)

  /** A thread starts a call, or takes its next step; a weak compare-and-swap may fail
      although the values agree. */
  datatype Action = Start(tid: Tid, call: Call) | Step(tid: Tid, spurious: bool)

  const INIT := State([], Null, map[], [])

  function SetNext(mem: seq<Cell>, node: nat, next: Ref): seq<Cell> {
    if node < |mem| then mem[node := mem[node].(next := next)] else mem
  }

  function NextOf(mem: seq<Cell>, node: nat): Ref {
    if node < |mem| then mem[node].next else Null
  }

  function ValueOf(mem: seq<Cell>, node: nat): int {
    if node < |mem| then mem[node].value else 0
  }

  /** A loop head of `pop`: stop on an empty stack, else read the next pointer. */
  function PopLoop(inv: nat, head: Ref): Local {
    match head
    case Null => Done(inv, Empty)
    case At(h) => PopNext(inv, h)
  }

  function StartCall(s: State, t: Tid, call: Call): State {
    var s := s.(history := s.history + [Inv(t, call)]);
    match call
    case Put(v) => s.(mem := s.mem + [Cell(v, Null)], threads := s.threads[t := PushLoad(|s.history| - 1, |s.mem|)])
    case Take => s.(threads := s.threads[t := PopLoad(|s.history| - 1)])
  }

  function StepThread(s: State, t: Tid, l: Local, spurious: bool): State {
    match l
    case PushLoad(i, node) =>
      s.(mem := SetNext(s.mem, node, s.head), threads := s.threads[t := PushCas(i, node)])
    case PushCas(i, node) =>
      if s.head == NextOf(s.mem, node) && !spurious then
        s.(head := At(node), threads := s.threads[t := Done(i, Ack)])
      else
        s.(mem := SetNext(s.mem, node, s.head))
    case PopLoad(i) =>
      s.(threads := s.threads[t := PopLoop(i, s.head)])
    case PopNext(i, oldHead) =>
      s.(threads := s.threads[t := PopCas(i, oldHead, NextOf(s.mem, oldHead))])
    case PopCas(i, oldHead, next) =>
      if s.head == At(oldHead) && !spurious then
        s.(head := next, threads := s.threads[t := PopValue(i, oldHead)])
      else
        s.(threads := s.threads[t := PopLoop(i, s.head)])
    case PopValue(i, oldHead) =>
      s.(threads := s.threads[t := Done(i, Got(ValueOf(s.mem, oldHead)))])
    case Done(_, ret) =>
      s.(history := s.history + [Resp(t, ret)], threads := s.threads - {t})
  }

  function Next(s: State, a: Action): State {
    match a
    case Start(t, call) => if t in s.threads then s else StartCall(s, t, call)
    case Step(t, spurious) => if t in s.threads then StepThread(s, t, s.threads[t], spurious) else s
  }

  /** The state after a schedule. */
  function Run(schedule: seq<Action>): State {
    if schedule == [] then INIT else Next(Run(schedule[..|schedule| - 1]), schedule[|schedule| - 1])
  }

  // ---------- Invariant ----------

  /** What the proof tracks besides the state: the stacked nodes from the bottom up, all nodes
      ever pushed, and the linearization so far. */
  datatype Ghost = Ghost(chain: seq<nat>, pushed: set<nat>, lin: seq<Entry>)

  ghost function Values(mem: seq<Cell>, chain: seq<nat>): (q: seq<int>)
    ensures |q| == |chain|
  {
    if chain == [] then [] else Values(mem, chain[..|chain| - 1]) + [ValueOf(mem, chain[|chain| - 1])]
  }

  function Top(chain: seq<nat>): Ref {
    if chain == [] then Null else At(chain[|chain| - 1])
  }

  /** The chain is what the next pointers link, from the head down. */
  ghost predicate Linked(mem: seq<Cell>, head: Ref, chain: seq<nat>, pushed: set<nat>) {
    && head == Top(chain)
    && (forall n | n in pushed :: n < |mem|)
    && (forall k | 0 <= k < |chain| :: chain[k] in pushed && NextOf(mem, chain[k]) == Top(chain[..k]))
  }

  ghost predicate ThreadOk(s: State, g: Ghost, t: Tid, l: Local) {
    && Pending(s.history, t, l.inv)
    && match l {
      case PushLoad(i, node) =>
        node < |s.mem| && node !in g.pushed && s.history[i].call == Put(s.mem[node].value) && NotInLin(g.lin, i)
      case PushCas(i, node) =>
        node < |s.mem| && node !in g.pushed && s.history[i].call == Put(s.mem[node].value) && NotInLin(g.lin, i)
      case PopLoad(i) => s.history[i].call == Take && NotInLin(g.lin, i)
      case PopNext(i, oldHead) => s.history[i].call == Take && oldHead in g.pushed && NotInLin(g.lin, i)
      case PopCas(i, oldHead, next) =>
        s.history[i].call == Take && oldHead in g.pushed && next == NextOf(s.mem, oldHead) && NotInLin(g.lin, i)
      case PopValue(i, oldHead) => oldHead in g.pushed && InLin(g.lin, i, Got(ValueOf(s.mem, oldHead)))
      case Done(i, ret) => InLin(g.lin, i, ret)
    }
  }

  predicate Owns(l: Local, node: nat) {
    (l.PushLoad? || l.PushCas?) && l.node == node
  }

  ghost predicate Invariant(s: State, g: Ghost) {
    && Linked(s.mem, s.head, g.chain, g.pushed)
    && GoodLin(Lifo, s.history, g.lin) && Contents(Lifo, g.lin) == Values(s.mem, g.chain)
    && (forall t | t in s.threads :: ThreadOk(s, g, t, s.threads[t]))
    && (forall t, u, node | t in s.threads && u in s.threads && t != u && Owns(s.threads[t], node) ::
         !Owns(s.threads[u], node))
  }

  // ---------- What a step leaves alone ----------

  /** A step of `t` from `s` to `s'` as other threads see it. */
  ghost predicate Foreign(s: State, g: Ghost, s': State, g': Ghost, t: Tid, i: nat, own: nat) {
    && |s.mem| <= |s'.mem| && (forall n | 0 <= n < |s.mem| :: s'.mem[n].value == s.mem[n].value)
    && (forall n | 0 <= n < |s.mem| && n != own :: s'.mem[n].next == s.mem[n].next)
    && (own < |s.mem| ==> own !in g.pushed)
    && g.pushed <= g'.pushed <= g.pushed + {own}
    && (s'.history == s.history || exists e: Event :: e.tid == t && s'.history == s.history + [e])
    && OthersInLin(g.lin, g'.lin, i)
  }

  lemma OtherThreadOk(s: State, g: Ghost, s': State, g': Ghost, t: Tid, i: nat, own: nat, u: Tid, l: Local)
    requires Foreign(s, g, s', g', t, i, own) && ThreadOk(s, g, u, l) && u != t && l.inv != i && !Owns(l, own)
    requires forall n | n in g.pushed :: n < |s.mem|
    ensures ThreadOk(s', g', u, l)
  {
    hide InLin, NotInLin;
    if s'.history != s.history {
      var e: Event :| e.tid == t && s'.history == s.history + [e];
      PendingStays(s.history, e, u, l.inv);
    }
  }

  /** The other threads of `s` are untouched in `s'`. */
  ghost predicate OnlyThread(s: State, s': State, t: Tid) {
    forall u | u != t :: (u in s'.threads <==> u in s.threads) && (u in s.threads ==> s'.threads[u] == s.threads[u])
  }

  /** A step keeps the invariant if it keeps the shared part and its own thread's part. */
  lemma StepKeeps(s: State, g: Ghost, s': State, g': Ghost, t: Tid, i: nat, own: nat)
    requires Invariant(s, g) && Foreign(s, g, s', g', t, i, own) && OnlyThread(s, s', t)
    requires i < |s.history| ==> s.history[i].tid == t
    requires forall u | u in s.threads && u != t :: !Owns(s.threads[u], own)
    requires Linked(s'.mem, s'.head, g'.chain, g'.pushed)
    requires GoodLin(Lifo, s'.history, g'.lin) && Contents(Lifo, g'.lin) == Values(s'.mem, g'.chain)
    requires t in s'.threads ==> ThreadOk(s', g', t, s'.threads[t])
    requires t in s'.threads ==> forall node | Owns(s'.threads[t], node) :: node == own
    ensures Invariant(s', g')
  {
    hide InLin, NotInLin, GoodLin, Contents, Foreign;
    forall u | u in s'.threads && u != t
      ensures ThreadOk(s', g', u, s'.threads[u])
    {
      var l := s.threads[u];
      assert ThreadOk(s, g, u, l);
      OtherThreadOk(s, g, s', g', t, i, own, u, l);
    }
  }

  lemma {:induction false} ValuesStay(mem: seq<Cell>, mem': seq<Cell>, chain: seq<nat>)
    requires |mem| <= |mem'| && (forall n | 0 <= n < |mem| :: mem'[n].value == mem[n].value)
    requires forall k | 0 <= k < |chain| :: chain[k] < |mem|
    ensures Values(mem', chain) == Values(mem, chain)
  {
    if chain != [] {
      ValuesStay(mem, mem', chain[..|chain| - 1]);
    }
  }

  /** Cells that are not in the chain may change their next pointer. */
  lemma LinkedStays(mem: seq<Cell>, mem': seq<Cell>, head: Ref, chain: seq<nat>, pushed: set<nat>)
    requires Linked(mem, head, chain, pushed) && |mem| <= |mem'|
    requires forall n | 0 <= n < |mem| :: mem'[n].value == mem[n].value
    requires forall n | 0 <= n < |mem| && n in pushed :: mem'[n].next == mem[n].next
    ensures Linked(mem', head, chain, pushed) && Values(mem', chain) == Values(mem, chain)
  {
    ValuesStay(mem, mem', chain);
  }

  // ---------- The steps ----------

  lemma StartKeeps(s: State, g: Ghost, t: Tid, call: Call)
    requires Invariant(s, g) && t !in s.threads
    ensures Invariant(StartCall(s, t, call), g)
  {
    hide GoodLin;
    var s' := StartCall(s, t, call);
    Invoke(Lifo, s.history, g.lin, t, call);
    assert s'.history == s.history + [Inv(t, call)];
    LinkedStays(s.mem, s'.mem, s.head, g.chain, g.pushed);
    forall u | u in s.threads
      ensures !Owns(s.threads[u], |s.mem|)
    {
      assert ThreadOk(s, g, u, s.threads[u]);
    }
    StepKeeps(s, g, s', g, t, |s.history|, |s.mem|);
  }

  /** Steps that only move a thread to its next local state. */
  lemma LocalStepKeeps(s: State, g: Ghost, t: Tid, l': Local)
    requires Invariant(s, g) && t in s.threads && l'.inv == s.threads[t].inv && !l'.PushLoad? && !l'.PushCas?
    requires ThreadOk(s, g, t, l')
    ensures Invariant(s.(threads := s.threads[t := l']), g)
  {
    hide GoodLin, Linked;
    var s' := s.(threads := s.threads[t := l']);
    forall u | u in s.threads
      ensures !Owns(s.threads[u], |s.mem|)
    {
      assert ThreadOk(s, g, u, s.threads[u]);
    }
    assert ThreadOk(s', g, t, l');
    assert Linked(s'.mem, s'.head, g.chain, g.pushed);
    StepKeeps(s, g, s', g, t, l'.inv, |s.mem|);
  }

  /** The next pointer of a node that has not been pushed is private. */
  lemma SetNextKeeps(s: State, g: Ghost, t: Tid)
    requires Invariant(s, g) && t in s.threads && (s.threads[t].PushLoad? || s.threads[t].PushCas?)
    ensures var l := s.threads[t];
      Invariant(s.(mem := SetNext(s.mem, l.node, s.head), threads := s.threads[t := PushCas(l.inv, l.node)]), g)
  {
    hide GoodLin;
    var l := s.threads[t];
    assert ThreadOk(s, g, t, l) && Owns(l, l.node);
    var s' := s.(mem := SetNext(s.mem, l.node, s.head), threads := s.threads[t := PushCas(l.inv, l.node)]);
    LinkedStays(s.mem, s'.mem, s.head, g.chain, g.pushed);
    StepKeeps(s, g, s', g, t, l.inv, l.node);
  }

  lemma OthersDontOwn(s: State, g: Ghost, node: nat)
    requires Invariant(s, g) && node >= |s.mem|
    ensures forall u | u in s.threads :: !Owns(s.threads[u], node)
  {
    forall u | u in s.threads
      ensures !Owns(s.threads[u], node)
    {
      assert ThreadOk(s, g, u, s.threads[u]);
    }
  }

  /** The compare-and-swap of `push` succeeds: the push takes effect. */
  lemma PushKeeps(s: State, g: Ghost, t: Tid) returns (g': Ghost)
    requires Invariant(s, g) && t in s.threads && s.threads[t].PushCas? && s.head == NextOf(s.mem, s.threads[t].node)
    ensures var l := s.threads[t];
      Invariant(s.(head := At(l.node), threads := s.threads[t := Done(l.inv, Ack)]), g')
  {
    hide GoodLin, InLin, NotInLin, OthersInLin, Linked, Contents, Values;
    var l := s.threads[t];
    assert ThreadOk(s, g, t, l) && Owns(l, l.node);
    var s' := s.(head := At(l.node), threads := s.threads[t := Done(l.inv, Ack)]);
    var lin' := TakeEffect(Lifo, s.history, g.lin, t, l.inv);
    g' := Ghost(g.chain + [l.node], g.pushed + {l.node}, lin');
    LinkedPush(s.mem, s.head, g.chain, g.pushed, l.node);
    StepKeeps(s, g, s', g', t, l.inv, l.node);
  }

  lemma LinkedPush(mem: seq<Cell>, head: Ref, chain: seq<nat>, pushed: set<nat>, node: nat)
    requires Linked(mem, head, chain, pushed) && node < |mem| && NextOf(mem, node) == head
    ensures Linked(mem, At(node), chain + [node], pushed + {node})
    ensures Values(mem, chain + [node]) == Values(mem, chain) + [mem[node].value]
  {
    var chain' := chain + [node];
    assert chain'[..|chain|] == chain;
    forall k | 0 <= k < |chain'|
      ensures chain'[k] in pushed + {node} && NextOf(mem, chain'[k]) == Top(chain'[..k])
    {
      if k < |chain| {
        assert chain'[..k] == chain[..k];
      }
    }
  }

  /** The compare-and-swap of `pop` succeeds: the pop takes effect.  The node it saw is still
      the top, so the next pointer it read is still the one below. */
  lemma PopKeeps(s: State, g: Ghost, t: Tid) returns (g': Ghost)
    requires Invariant(s, g) && t in s.threads && s.threads[t].PopCas? && s.head == At(s.threads[t].oldHead)
    ensures var l := s.threads[t];
      Invariant(s.(head := l.next, threads := s.threads[t := PopValue(l.inv, l.oldHead)]), g')
  {
    hide GoodLin, InLin, NotInLin, OthersInLin, Linked, Contents, Values;
    var l := s.threads[t];
    assert ThreadOk(s, g, t, l);
    LinkedPop(s.mem, s.head, g.chain, g.pushed);
    var s' := s.(head := l.next, threads := s.threads[t := PopValue(l.inv, l.oldHead)]);
    var lin' := TakeEffect(Lifo, s.history, g.lin, t, l.inv);
    g' := Ghost(g.chain[..|g.chain| - 1], g.pushed, lin');
    OthersDontOwn(s, g, |s.mem|);
    StepKeeps(s, g, s', g', t, l.inv, |s.mem|);
  }

  lemma LinkedPop(mem: seq<Cell>, head: Ref, chain: seq<nat>, pushed: set<nat>)
    requires Linked(mem, head, chain, pushed) && head.At?
    ensures chain != [] && chain[|chain| - 1] == head.addr && head.addr in pushed
    ensures Linked(mem, NextOf(mem, head.addr), chain[..|chain| - 1], pushed)
    ensures Values(mem, chain[..|chain| - 1]) == Values(mem, chain)[..|chain| - 1]
    ensures Values(mem, chain)[|chain| - 1] == ValueOf(mem, head.addr)
  {
    var rest := chain[..|chain| - 1];
    forall k | 0 <= k < |rest|
      ensures rest[k] in pushed && NextOf(mem, rest[k]) == Top(rest[..k])
    {
      assert rest[..k] == chain[..k];
    }
  }

  /** `pop` loads a null head: the stack is empty at that moment. */
  lemma EmptyKeeps(s: State, g: Ghost, t: Tid) returns (g': Ghost)
    requires Invariant(s, g) && t in s.threads && (s.threads[t].PopLoad? || s.threads[t].PopCas?) && s.head == Null
    ensures Invariant(s.(threads := s.threads[t := Done(s.threads[t].inv, Empty)]), g')
  {
    hide GoodLin, InLin, NotInLin, OthersInLin;
    var l := s.threads[t];
    assert ThreadOk(s, g, t, l);
    var s' := s.(threads := s.threads[t := Done(l.inv, Empty)]);
    var lin' := TakeEffect(Lifo, s.history, g.lin, t, l.inv);
    g' := g.(lin := lin');
    OthersDontOwn(s, g, |s.mem|);
    StepKeeps(s, g, s', g', t, l.inv, |s.mem|);
  }

  /** `pop` loads a node. */
  lemma NonEmptyKeeps(s: State, g: Ghost, t: Tid)
    requires Invariant(s, g) && t in s.threads && (s.threads[t].PopLoad? || s.threads[t].PopCas?) && s.head.At?
    ensures Invariant(s.(threads := s.threads[t := PopNext(s.threads[t].inv, s.head.addr)]), g)
  {
    var l := s.threads[t];
    assert ThreadOk(s, g, t, l);
    LinkedPop(s.mem, s.head, g.chain, g.pushed);
    LocalStepKeeps(s, g, t, PopNext(l.inv, s.head.addr));
  }

  lemma DoneKeeps(s: State, g: Ghost, t: Tid)
    requires Invariant(s, g) && t in s.threads && s.threads[t].Done?
    ensures Invariant(s.(history := s.history + [Resp(t, s.threads[t].ret)], threads := s.threads - {t}), g)
  {
    hide GoodLin, InLin, NotInLin;
    var l := s.threads[t];
    assert ThreadOk(s, g, t, l);
    var s' := s.(history := s.history + [Resp(t, l.ret)], threads := s.threads - {t});
    Respond(Lifo, s.history, g.lin, t, l.inv, l.ret);
    OthersDontOwn(s, g, |s.mem|);
    assert s'.history == s.history + [Resp(t, l.ret)];
    StepKeeps(s, g, s', g, t, l.inv, |s.mem|);
  }

  /** Every step of every thread keeps the invariant. */
  lemma NextKeeps(s: State, g: Ghost, a: Action) returns (g': Ghost)
    requires Invariant(s, g)
    ensures Invariant(Next(s, a), g')
  {
    hide Invariant, GoodLin;
    g' := g;
    var t := a.tid;
    if a.Start? {
      if t !in s.threads {
        StartKeeps(s, g, t, a.call);
      }
    } else if t in s.threads {
      var l := s.threads[t];
      ThreadIsOk(s, g, t);
      match l {
        case PushLoad(_, _) => SetNextKeeps(s, g, t);
        case PushCas(_, node) =>
          if s.head == NextOf(s.mem, node) && !a.spurious {
            g' := PushKeeps(s, g, t);
          } else {
            SetNextKeeps(s, g, t);
            assert s.threads[t := l] == s.threads;
          }
        case PopLoad(_) => g' := LoopKeeps(s, g, t);
        case PopNext(i, oldHead) => LocalStepKeeps(s, g, t, PopCas(i, oldHead, NextOf(s.mem, oldHead)));
        case PopCas(_, oldHead, _) =>
          if s.head == At(oldHead) && !a.spurious {
            g' := PopKeeps(s, g, t);
          } else {
            g' := LoopKeeps(s, g, t);
          }
        case PopValue(i, oldHead) => LocalStepKeeps(s, g, t, Done(i, Got(ValueOf(s.mem, oldHead))));
        case Done(_, _) => DoneKeeps(s, g, t);
      }
    }
  }

  lemma ThreadIsOk(s: State, g: Ghost, t: Tid)
    requires Invariant(s, g) && t in s.threads
    ensures ThreadOk(s, g, t, s.threads[t])
  {
  }

  lemma LoopKeeps(s: State, g: Ghost, t: Tid) returns (g': Ghost)
    requires Invariant(s, g) && t in s.threads && (s.threads[t].PopLoad? || s.threads[t].PopCas?)
    ensures Invariant(s.(threads := s.threads[t := PopLoop(s.threads[t].inv, s.head)]), g')
  {
    hide Invariant;
    g' := g;
    if s.head == Null {
      g' := EmptyKeeps(s, g, t);
    } else {
      NonEmptyKeeps(s, g, t);
    }
  }

  lemma {:induction false} RunKeeps(schedule: seq<Action>) returns (g: Ghost)
    ensures Invariant(Run(schedule), g)
  {
    if schedule == [] {
      g := Ghost([], {}, []);
    } else {
      g := RunKeeps(schedule[..|schedule| - 1]);
      g := NextKeeps(Run(schedule[..|schedule| - 1]), g, schedule[|schedule| - 1]);
    }
  }

  /** Every run of any number of threads is linearizable as a LIFO stack. */
  lemma StackIsLinearizable(schedule: seq<Action>)
    ensures Linearizable(Lifo, Run(schedule).history)
  {
    hide GoodLin, Run;
    var g := RunKeeps(schedule);
    GoodIsLinearizable(Lifo, Run(schedule).history, g.lin);
  }
}
