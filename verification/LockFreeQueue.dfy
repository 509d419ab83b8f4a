/** The Michael-Scott queue of queue.cpp.  Every atomic access is one step of one thread; a run
    is any sequence of calls and steps of any number of threads.  Memory cells are never reused
    and steps are sequentially consistent. */
module LockFreeQueue {
  import opened Linearizability

  datatype Ref = Null | At(addr: nat)
  datatype Cell = Cell(value: int, next: Ref)

  /** Where a thread is inside `enqueue` or `dequeue`; `inv` is where its call is in the
      history. */
  datatype Local =
    | EnqTail(inv: nat, node: nat)
    | EnqNext(inv: nat, node: nat, tail: nat)
    | EnqCheck(inv: nat, node: nat, tail: nat, next: Ref)
    | EnqLink(inv: nat, node: nat, tail: nat)
    | EnqHelp(inv: nat, node: nat, tail: nat, next: Ref)
    | EnqSwing(inv: nat, node: nat, tail: nat)
    | DeqHead(inv: nat)
    | DeqTail(inv: nat, head: nat)
    | DeqNext(inv: nat, head: nat, tail: nat)
    | DeqCheck(inv: nat, head: nat, tail: nat, next: Ref)
    | DeqHelp(inv: nat, tail: nat, next: Ref)
    | DeqValue(inv: nat, head: nat, next: Ref)
    | DeqSwing(inv: nat, head: nat, next: Ref, value: int)
    | Done(inv: nat, ret: Ret)

  datatype State = State(mem: seq<Cell>, head: nat, tail: nat, threads: map<Tid, Local>, history: History)

  /** A thread starts a call, or takes its next step; a weak compare-and-swap may fail
      although the values agree. */
  datatype Action = Start(tid: Tid, call: Call) | Step(tid: Tid, spurious: bool)

  /** One dummy node; its value is never read. */
  const INIT := State([Cell(0, Null)], 0, 0, map[], [])

  function SetNext(mem: seq<Cell>, node: nat, next: Ref): seq<Cell> {
    if node < |mem| then mem[node := mem[node].(next := next)] else mem
  }

  function NextOf(mem: seq<Cell>, node: nat): Ref {
    if node < |mem| then mem[node].next else Null
  }

  function ValueOf(mem: seq<Cell>, node: Ref): int {
    if node.At? && node.addr < |mem| then mem[node.addr].value else 0
  }

  function StartCall(s: State, t: Tid, call: Call): State {
    var s := s.(history := s.history + [Inv(t, call)]);
    match call
    case Put(v) => s.(mem := s.mem + [Cell(v, Null)], threads := s.threads[t := EnqTail(|s.history| - 1, |s.mem|)])
    case Take => s.(threads := s.threads[t := DeqHead(|s.history| - 1)])
  }

  /** `tail_.compare_exchange_weak(tail, next)`. */
  function SwingTail(s: State, tail: nat, next: Ref, spurious: bool): nat {
    if s.tail == tail && next.At? && !spurious then next.addr else s.tail
  }

  function StepThread(s: State, t: Tid, l: Local, spurious: bool): State {
    match l
    case EnqTail(i, node) =>
      s.(threads := s.threads[t := EnqNext(i, node, s.tail)])
    case EnqNext(i, node, tail) =>
      s.(threads := s.threads[t := EnqCheck(i, node, tail, NextOf(s.mem, tail))])
    case EnqCheck(i, node, tail, next) =>
      s.(threads := s.threads[t :=
        if tail != s.tail then EnqTail(i, node) else if next == Null then EnqLink(i, node, tail)
            else EnqHelp(i, node, tail, next)])
    case EnqLink(i, node, tail) =>
      if NextOf(s.mem, tail) == Null && !spurious then
        s.(mem := SetNext(s.mem, tail, At(node)), threads := s.threads[t := EnqSwing(i, node, tail)])
      else
        s.(threads := s.threads[t := EnqTail(i, node)])
    case EnqHelp(i, node, tail, next) =>
      s.(tail := SwingTail(s, tail, next, spurious), threads := s.threads[t := EnqTail(i, node)])
    case EnqSwing(i, node, tail) =>
      s.(tail := SwingTail(s, tail, At(node), spurious), threads := s.threads[t := Done(i, Ack)])
    case DeqHead(i) =>
      s.(threads := s.threads[t := DeqTail(i, s.head)])
    case DeqTail(i, head) =>
      s.(threads := s.threads[t := DeqNext(i, head, s.tail)])
    case DeqNext(i, head, tail) =>
      s.(threads := s.threads[t := DeqCheck(i, head, tail, NextOf(s.mem, head))])
    case DeqCheck(i, head, tail, next) =>
      s.(threads := s.threads[t :=
        if head != s.head then DeqHead(i)
        else if next == Null then Done(i, Empty)
        else if head == tail then DeqHelp(i, tail, next)
        else DeqValue(i, head, next)])
    case DeqHelp(i, tail, next) =>
      s.(tail := SwingTail(s, tail, next, spurious), threads := s.threads[t := DeqHead(i)])
    case DeqValue(i, head, next) =>
      s.(threads := s.threads[t := DeqSwing(i, head, next, ValueOf(s.mem, next))])
    case DeqSwing(i, head, next, value) =>
      if s.head == head && next.At? && !spurious then
        s.(head := next.addr, threads := s.threads[t := Done(i, Got(value))])
      else
        s.(threads := s.threads[t := DeqHead(i)])
    case Done(_, ret) =>
      s.(history := s.history + [Resp(t, ret)], threads := s.threads - {t})
  }

  function Next(s: State, a: Action): State {
    match a
    case Start(t, call) => if t in s.threads then s else StartCall(s, t, call)
    case Step(t, spurious) => if t in s.threads then StepThread(s, t, s.threads[t], spurious) else s
  }

  /** The state after a schedule. */
  function Run(schedule: seq<Action>): State {
    if schedule == [] then INIT else Next(Run(schedule[..|schedule| - 1]), schedule[|schedule| - 1])
  }

  // ---------- Invariant ----------

  /** What the proof tracks besides the state: all nodes ever linked in order, their positions,
      where head and tail point, and the linearization so far. */
  datatype Ghost = Ghost(chain: seq<nat>, pos: map<nat, nat>, head: nat, tail: nat, lin: seq<Entry>)

  ghost function Values(mem: seq<Cell>, nodes: seq<nat>): (q: seq<int>)
    ensures |q| == |nodes| && forall k | 0 <= k < |q| :: q[k] == ValueOf(mem, At(nodes[k]))
  {
    if nodes == [] then [] else [ValueOf(mem, At(nodes[0]))] + Values(mem, nodes[1..])
  }

  lemma ValuesSnoc(mem: seq<Cell>, nodes: seq<nat>, node: nat)
    ensures Values(mem, nodes + [node]) == Values(mem, nodes) + [ValueOf(mem, At(node))]
  {
  }

  function LinkAt(chain: seq<nat>, k: nat): Ref {
    if k + 1 < |chain| then At(chain[k + 1]) else Null
  }

  /** The `k`-th node of the chain is where it should be and points to the next one. */
  ghost predicate LinkedAt(mem: seq<Cell>, chain: seq<nat>, pos: map<nat, nat>, k: nat)
    requires k < |chain|
  {
    chain[k] < |mem| && chain[k] in pos && pos[chain[k]] == k && NextOf(mem, chain[k]) == LinkAt(chain, k)
  }

  /** The next pointers link the chain; head is never ahead of tail, and tail is the last node
      or the one before it. */
  ghost predicate Linked(mem: seq<Cell>, head: nat, tail: nat, g: Ghost) {
    && g.head <= g.tail < |g.chain| <= g.tail + 2
    && head in g.pos && g.pos[head] == g.head && tail in g.pos && g.pos[tail] == g.tail
    && (forall k: nat {:trigger LinkedAt(mem, g.chain, g.pos, k)} | k < |g.chain| :: LinkedAt(mem, g.chain, g.pos, k))
    && (forall n | n in g.pos :: n < |mem| && g.pos[n] < |g.chain| && g.chain[g.pos[n]] == n)
  }

  /** The contents of the queue: the values behind the head node. */
  ghost predicate Agrees(mem: seq<Cell>, g: Ghost)
    requires g.head < |g.chain|
  {
    Contents(Fifo, g.lin) == Values(mem, g.chain[g.head + 1..])
  }

  /** A node that its thread has not linked yet. */
  ghost predicate Private(s: State, g: Ghost, i: nat, node: nat) {
    && node < |s.mem| && node !in g.pos && s.mem[node].next == Null
    && i < |s.history| && s.history[i].Inv? && s.history[i].call == Put(s.mem[node].value) && NotInLin(g.lin, i)
  }

  ghost predicate Taking(s: State, i: nat) {
    i < |s.history| && s.history[i].Inv? && s.history[i].call == Take
  }

  /** `next` was read from a linked node, whose next pointer never changes again. */
  ghost predicate LinkRead(s: State, g: Ghost, node: nat, next: Ref) {
    node in g.pos && next.At? && NextOf(s.mem, node) == next
  }

  ghost predicate ThreadOk(s: State, g: Ghost, t: Tid, l: Local) {
    && Pending(s.history, t, l.inv)
    && match l {
      case EnqTail(i, node) => Private(s, g, i, node)
      case EnqNext(i, node, tail) => Private(s, g, i, node) && tail in g.pos && g.pos[tail] <= g.tail
      case EnqCheck(i, node, tail, next) =>
        && Private(s, g, i, node) && tail in g.pos && g.pos[tail] <= g.tail
        && (next != Null ==> LinkRead(s, g, tail, next))
      case EnqLink(i, node, tail) => Private(s, g, i, node) && tail in g.pos && g.pos[tail] <= g.tail
      case EnqHelp(i, node, tail, next) => Private(s, g, i, node) && LinkRead(s, g, tail, next)
      case EnqSwing(i, node, tail) => LinkRead(s, g, tail, At(node)) && InLin(g.lin, i, Ack)
      case DeqHead(i) => Taking(s, i) && NotInLin(g.lin, i)
      case DeqTail(i, head) => Taking(s, i) && NotInLin(g.lin, i) && head in g.pos && g.pos[head] <= g.head
      case DeqNext(i, head, tail) =>
        && Taking(s, i) && NotInLin(g.lin, i) && head in g.pos && tail in g.pos
        && g.pos[head] <= g.head && g.pos[head] <= g.pos[tail] <= g.tail
      case DeqCheck(i, head, tail, next) =>
        && Taking(s, i) && head in g.pos && tail in g.pos
        && g.pos[head] <= g.head && g.pos[head] <= g.pos[tail] <= g.tail
        && (if next == Null then
              // the tentative "empty" stands while head has not moved
              (g.pos[head] == g.head ==> InLin(g.lin, i, Empty)) && (InLin(g.lin, i, Empty) || NotInLin(g.lin, i))
            else LinkRead(s, g, head, next) && NotInLin(g.lin, i))
      case DeqHelp(i, tail, next) => Taking(s, i) && NotInLin(g.lin, i) && LinkRead(s, g, tail, next)
      case DeqValue(i, head, next) =>
        && Taking(s, i) && NotInLin(g.lin, i) && LinkRead(s, g, head, next) && g.pos[head] < g.tail
      case DeqSwing(i, head, next, value) =>
        && Taking(s, i) && NotInLin(g.lin, i) && LinkRead(s, g, head, next) && g.pos[head] < g.tail
        && next.addr < |s.mem| && value == ValueOf(s.mem, next)
      case Done(i, ret) => InLin(g.lin, i, ret)
    }
  }

  predicate Owns(l: Local, node: nat) {
    (l.EnqTail? || l.EnqNext? || l.EnqCheck? || l.EnqLink? || l.EnqHelp?) && l.node == node
  }

  ghost predicate Invariant(s: State, g: Ghost) {
    && Linked(s.mem, s.head, s.tail, g)
    && GoodLin(Fifo, s.history, g.lin) && Agrees(s.mem, g)
    && (forall t | t in s.threads :: ThreadOk(s, g, t, s.threads[t]))
    && (forall t, u, node | t in s.threads && u in s.threads && t != u && Owns(s.threads[t], node) ::
         !Owns(s.threads[u], node))
  }

  // ---------- What a step leaves alone ----------

  /** A step of `t` from `s` to `s'` as other threads see it. */
  ghost predicate Foreign(s: State, g: Ghost, s': State, g': Ghost, t: Tid, i: nat, own: nat) {
    && |s.mem| <= |s'.mem| && (forall n | 0 <= n < |s.mem| :: s'.mem[n].value == s.mem[n].value)
    && (forall n | 0 <= n < |s.mem| && (n !in g.pos || s.mem[n].next.At?) && n != own ::
         s'.mem[n].next == s.mem[n].next)
    && own !in g.pos
    && (forall n | n in g.pos :: n in g'.pos && g'.pos[n] == g.pos[n]) && g'.pos.Keys <= g.pos.Keys + {own}
    && g.head <= g'.head && g.tail <= g'.tail
    && (s'.history == s.history || exists e: Event :: e.tid == t && s'.history == s.history + [e])
    && OthersInLin(g.lin, g'.lin, i)
  }

  lemma OtherThreadOk(s: State, g: Ghost, s': State, g': Ghost, t: Tid, i: nat, own: nat, u: Tid, l: Local)
    requires Foreign(s, g, s', g', t, i, own) && ThreadOk(s, g, u, l) && u != t && l.inv != i && !Owns(l, own)
    requires forall n | n in g.pos :: n < |s.mem|
    ensures ThreadOk(s', g', u, l)
  {
    hide InLin, NotInLin;
    if s'.history != s.history {
      var e: Event :| e.tid == t && s'.history == s.history + [e];
      PendingStays(s.history, e, u, l.inv);
    }
  }

  /** The other threads of `s` are untouched in `s'`. */
  ghost predicate OnlyThread(s: State, s': State, t: Tid) {
    forall u | u != t :: (u in s'.threads <==> u in s.threads) && (u in s.threads ==> s'.threads[u] == s.threads[u])
  }

  /** A step keeps the invariant if it keeps the shared part and its own thread's part. */
  lemma StepKeeps(s: State, g: Ghost, s': State, g': Ghost, t: Tid, i: nat, own: nat)
    requires Invariant(s, g) && Foreign(s, g, s', g', t, i, own) && OnlyThread(s, s', t)
    requires i < |s.history| ==> s.history[i].tid == t
    requires forall u | u in s.threads && u != t :: !Owns(s.threads[u], own)
    requires Linked(s'.mem, s'.head, s'.tail, g')
    requires GoodLin(Fifo, s'.history, g'.lin) && Agrees(s'.mem, g')
    requires t in s'.threads ==> ThreadOk(s', g', t, s'.threads[t])
    requires t in s'.threads ==> forall node | Owns(s'.threads[t], node) :: node == own
    ensures Invariant(s', g')
  {
    hide InLin, NotInLin, GoodLin, Contents, Foreign, Private, Taking, LinkRead;
    forall u | u in s'.threads && u != t
      ensures ThreadOk(s', g', u, s'.threads[u])
    {
      var l := s.threads[u];
      assert ThreadOk(s, g, u, l);
      OtherThreadOk(s, g, s', g', t, i, own, u, l);
    }
  }

  lemma ThreadIsOk(s: State, g: Ghost, t: Tid)
    requires Invariant(s, g) && t in s.threads
    ensures ThreadOk(s, g, t, s.threads[t])
  {
  }

  /** What a thread owns, nobody else owns; a fresh address belongs to nobody. */
  lemma OthersDontOwn(s: State, g: Ghost, t: Tid, node: nat)
    requires Invariant(s, g) && ((t in s.threads && Owns(s.threads[t], node)) || node >= |s.mem|)
    ensures node !in g.pos && forall u | u in s.threads && u != t :: !Owns(s.threads[u], node)
  {
    forall u | u in s.threads && Owns(s.threads[u], node)
      ensures node < |s.mem| && node !in g.pos
    {
      assert ThreadOk(s, g, u, s.threads[u]);
    }
  }

  /** The cell a step may write to: the thread's own node, or none. */
  function OwnCell(s: State, l: Local): nat {
    if l.EnqTail? || l.EnqNext? || l.EnqCheck? || l.EnqLink? || l.EnqHelp? then l.node else |s.mem|
  }

  // ---------- The steps ----------

  lemma StartKeeps(s: State, g: Ghost, t: Tid, call: Call)
    requires Invariant(s, g) && t !in s.threads
    ensures Invariant(StartCall(s, t, call), g)
  {
    hide GoodLin, Values, Contents, Linked, Agrees, ThreadOk, Foreign, OnlyThread, Invariant;
    var s' := StartCall(s, t, call);
    InvariantParts(s, g);
    Invoke(Fifo, s.history, g.lin, t, call);
    assert s'.history == s.history + [Inv(t, call)];
    OthersDontOwn(s, g, t, |s.mem|);
    MemGrows(s.mem, s'.mem, s.head, s.tail, g);
    StartForeign(s, g, t, call);
    StepKeeps(s, g, s', g, t, |s.history|, |s.mem|);
  }

  lemma InvariantParts(s: State, g: Ghost)
    requires Invariant(s, g)
    ensures Linked(s.mem, s.head, s.tail, g) && GoodLin(Fifo, s.history, g.lin) && Agrees(s.mem, g)
  {
    hide GoodLin, Linked, Agrees, ThreadOk;
  }

  lemma StartForeign(s: State, g: Ghost, t: Tid, call: Call)
    requires NotInLin(g.lin, |s.history|) && Pending(s.history + [Inv(t, call)], t, |s.history|)
    requires |s.mem| !in g.pos
    ensures var s' := StartCall(s, t, call);
            && Foreign(s, g, s', g, t, |s.history|, |s.mem|) && OnlyThread(s, s', t)
            && t in s'.threads && ThreadOk(s', g, t, s'.threads[t])
            && forall node | Owns(s'.threads[t], node) :: node == |s.mem|
  {
    hide NotInLin, InLin;
    var s' := StartCall(s, t, call);
    assert s'.history == s.history + [Inv(t, call)];
  }

  /** New cells and changes to unlinked cells do not show. */
  lemma MemGrows(mem: seq<Cell>, mem': seq<Cell>, head: nat, tail: nat, g: Ghost)
    requires Linked(mem, head, tail, g) && Agrees(mem, g) && |mem| <= |mem'|
    requires forall n | 0 <= n < |mem| :: mem'[n] == mem[n]
    ensures Linked(mem', head, tail, g) && Agrees(mem', g)
  {
    forall k: nat | k < |g.chain|
      ensures LinkedAt(mem', g.chain, g.pos, k)
    {
      assert LinkedAt(mem, g.chain, g.pos, k);
    }
    SameValues(mem, mem', head, tail, g);
  }

  lemma SameValues(mem: seq<Cell>, mem': seq<Cell>, head: nat, tail: nat, g: Ghost)
    requires Linked(mem, head, tail, g) && |mem| <= |mem'|
    requires forall n | 0 <= n < |mem| :: mem'[n].value == mem[n].value
    ensures Values(mem', g.chain[g.head + 1..]) == Values(mem, g.chain[g.head + 1..])
  {
    var nodes := g.chain[g.head + 1..];
    forall k | 0 <= k < |nodes|
      ensures ValueOf(mem', At(nodes[k])) == ValueOf(mem, At(nodes[k]))
    {
      assert LinkedAt(mem, g.chain, g.pos, g.head + 1 + k);
    }
  }

  /** Steps that only move a thread to its next local state. */
  lemma LocalStepKeeps(s: State, g: Ghost, t: Tid, l': Local)
    requires Invariant(s, g) && t in s.threads && l'.inv == s.threads[t].inv
    requires forall node | Owns(l', node) :: Owns(s.threads[t], node)
    requires ThreadOk(s, g, t, l')
    ensures Invariant(s.(threads := s.threads[t := l']), g)
  {
    hide GoodLin, Linked, Agrees, InLin, NotInLin;
    var s' := s.(threads := s.threads[t := l']);
    var own := OwnCell(s, s.threads[t]);
    OthersDontOwn(s, g, t, own);
    assert ThreadOk(s', g, t, l');
    SharedSame(s, s', g);
    StepKeeps(s, g, s', g, t, l'.inv, own);
  }

  lemma SharedSame(s: State, s': State, g: Ghost)
    requires Invariant(s, g) && s'.mem == s.mem && s'.head == s.head && s'.tail == s.tail
    ensures Linked(s'.mem, s'.head, s'.tail, g) && Agrees(s'.mem, g)
  {
  }

  /** Moving the tail from a linked node to its successor; any thread may do it. */
  lemma SwingKeeps(s: State, g: Ghost, t: Tid, tail: nat, next: Ref, spurious: bool, l': Local) returns (g': Ghost)
    requires Invariant(s, g) && t in s.threads && l'.inv == s.threads[t].inv && LinkRead(s, g, tail, next)
    requires forall node | Owns(l', node) :: Owns(s.threads[t], node)
    requires ThreadOk(s, g, t, l') && (l'.EnqTail? || l'.DeqHead? || l'.Done?)
    ensures Invariant(s.(tail := SwingTail(s, tail, next, spurious), threads := s.threads[t := l']), g')
  {
    hide GoodLin, InLin, NotInLin, Contents, Values;
    var s' := s.(tail := SwingTail(s, tail, next, spurious), threads := s.threads[t := l']);
    var own := OwnCell(s, s.threads[t]);
    OthersDontOwn(s, g, t, own);
    g' := if s'.tail == s.tail then g else g.(tail := g.tail + 1);
    SwingLinked(s, g, tail, next, spurious);
    StepKeeps(s, g, s', g', t, l'.inv, own);
  }

  lemma SwingLinked(s: State, g: Ghost, tail: nat, next: Ref, spurious: bool)
    requires Linked(s.mem, s.head, s.tail, g) && LinkRead(s, g, tail, next)
    ensures var tail' := SwingTail(s, tail, next, spurious);
      Linked(s.mem, s.head, tail', if tail' == s.tail then g else g.(tail := g.tail + 1))
  {
    var k := g.pos[tail];
    assert LinkedAt(s.mem, g.chain, g.pos, k);
    assert k + 1 < |g.chain| && LinkedAt(s.mem, g.chain, g.pos, k + 1);
  }

  /** The compare-and-swap on the last node's next pointer succeeds: the enqueue takes
      effect.  A linked node without a successor is the last one, so tail points to it. */
  lemma LinkKeeps(s: State, g: Ghost, t: Tid) returns (g': Ghost)
    requires Invariant(s, g) && t in s.threads && s.threads[t].EnqLink? && NextOf(s.mem, s.threads[t].tail) == Null
    ensures var l := s.threads[t];
      Invariant(s.(mem := SetNext(s.mem, l.tail, At(l.node)),
          threads := s.threads[t := EnqSwing(l.inv, l.node, l.tail)]), g')
  {
    hide GoodLin, InLin, NotInLin, OthersInLin, Contents, Values, Linked;
    var l := s.threads[t];
    ThreadIsOk(s, g, t);
    OthersDontOwn(s, g, t, l.node);
    LastNode(s, g, l.tail);
    var s' := s.(mem := SetNext(s.mem, l.tail, At(l.node)), threads := s.threads[t := EnqSwing(l.inv, l.node, l.tail)]);
    var lin' := TakeEffect(Fifo, s.history, g.lin, t, l.inv);
    g' := Ghost(g.chain + [l.node], g.pos[l.node := |g.chain|], g.head, g.tail, lin');
    LinkedAppend(s, g, l.tail, l.node, lin');
    StepKeeps(s, g, s', g', t, l.inv, l.node);
  }

  lemma LastNode(s: State, g: Ghost, tail: nat)
    requires Linked(s.mem, s.head, s.tail, g) && tail in g.pos && NextOf(s.mem, tail) == Null && g.pos[tail] <= g.tail
    ensures g.pos[tail] == g.tail == |g.chain| - 1 && tail < |s.mem| && g.chain[|g.chain| - 1] == tail
  {
    assert LinkedAt(s.mem, g.chain, g.pos, g.pos[tail]);
  }

  lemma LinkedAppend(s: State, g: Ghost, tail: nat, node: nat, lin': seq<Entry>)
    requires Linked(s.mem, s.head, s.tail, g) && Agrees(s.mem, g)
    requires tail in g.pos && g.pos[tail] == g.tail == |g.chain| - 1 && node !in g.pos && node < |s.mem|
    requires s.mem[node].next == Null
    requires Contents(Fifo, lin') == Contents(Fifo, g.lin) + [s.mem[node].value]
    ensures var g' := Ghost(g.chain + [node], g.pos[node := |g.chain|], g.head, g.tail, lin');
      var mem' := SetNext(s.mem, tail, At(node));
      Linked(mem', s.head, s.tail, g') && Agrees(mem', g')
  {
    hide Contents, Values, LinkedAt;
    var g' := Ghost(g.chain + [node], g.pos[node := |g.chain|], g.head, g.tail, lin');
    var mem' := SetNext(s.mem, tail, At(node));
    forall k: nat | k < |g'.chain|
      ensures LinkedAt(mem', g'.chain, g'.pos, k)
    {
      assert k < |g.chain| ==> LinkedAt(s.mem, g.chain, g.pos, k);
      AppendAt(s.mem, g.chain, g.pos, tail, node, k);
    }
    SameValues(s.mem, mem', s.head, s.tail, g);
    assert g'.chain[g.head + 1..] == g.chain[g.head + 1..] + [node];
    ValuesSnoc(mem', g.chain[g.head + 1..], node);
  }

  lemma AppendAt(mem: seq<Cell>, chain: seq<nat>, pos: map<nat, nat>, tail: nat, node: nat, k: nat)
    requires chain != [] && chain[|chain| - 1] == tail < |mem| && tail in pos && pos[tail] == |chain| - 1
    requires node !in pos && node < |mem| && mem[node].next == Null && k <= |chain|
    requires k < |chain| ==> LinkedAt(mem, chain, pos, k)
    ensures LinkedAt(SetNext(mem, tail, At(node)), chain + [node], pos[node := |chain|], k)
  {
  }

  /** `dequeue` reads a null next pointer.  If head has not moved, the queue is empty at this
      very moment, and the dequeue tentatively takes effect. */
  lemma ReadNextKeeps(s: State, g: Ghost, t: Tid) returns (g': Ghost)
    requires Invariant(s, g) && t in s.threads && s.threads[t].DeqNext?
    ensures var l := s.threads[t];
      Invariant(s.(threads := s.threads[t := DeqCheck(l.inv, l.head, l.tail, NextOf(s.mem, l.head))]), g')
  {
    hide GoodLin, InLin, NotInLin, OthersInLin, Contents, Values;
    var l := s.threads[t];
    ThreadIsOk(s, g, t);
    var l' := DeqCheck(l.inv, l.head, l.tail, NextOf(s.mem, l.head));
    if NextOf(s.mem, l.head) == Null && s.head == l.head {
      NothingBehind(s, g);
      var lin' := TakeEffect(Fifo, s.history, g.lin, t, l.inv);
      g' := g.(lin := lin');
      OthersDontOwn(s, g, t, |s.mem|);
      StepKeeps(s, g, s.(threads := s.threads[t := l']), g', t, l.inv, |s.mem|);
    } else {
      g' := g;
      assert g.pos[l.head] == g.head ==> l.head == s.head;
      LocalStepKeeps(s, g, t, l');
    }
  }

  lemma NothingBehind(s: State, g: Ghost)
    requires Linked(s.mem, s.head, s.tail, g) && Agrees(s.mem, g) && NextOf(s.mem, s.head) == Null
    ensures Contents(Fifo, g.lin) == []
  {
    assert LinkedAt(s.mem, g.chain, g.pos, g.head);
    assert g.chain[g.head + 1..] == [];
  }

  /** The second look at head in `dequeue`. */
  lemma CheckKeeps(s: State, g: Ghost, t: Tid) returns (g': Ghost)
    requires Invariant(s, g) && t in s.threads && s.threads[t].DeqCheck?
    ensures Invariant(StepThread(s, t, s.threads[t], false), g')
  {
    hide GoodLin, InLin, NotInLin, OthersInLin, Contents, Values, Agrees;
    var l := s.threads[t];
    ThreadIsOk(s, g, t);
    g' := g;
    if l.head == s.head {
      assert LinkedAt(s.mem, g.chain, g.pos, g.head);
      if l.next == Null {
        LocalStepKeeps(s, g, t, Done(l.inv, Empty));
      } else if l.head == l.tail {
        LocalStepKeeps(s, g, t, DeqHelp(l.inv, l.tail, l.next));
      } else {
        assert g.chain[g.pos[l.head]] == l.head && g.chain[g.pos[l.tail]] == l.tail;
        LocalStepKeeps(s, g, t, DeqValue(l.inv, l.head, l.next));
      }
    } else if InLin(g.lin, l.inv, Empty) {
      g' := RetryKeeps(s, g, t);
    } else {
      LocalStepKeeps(s, g, t, DeqHead(l.inv));
    }
  }

  /** Head moved although the queue was empty: the tentative result is withdrawn. */
  lemma RetryKeeps(s: State, g: Ghost, t: Tid) returns (g': Ghost)
    requires Invariant(s, g) && t in s.threads && s.threads[t].DeqCheck? && InLin(g.lin, s.threads[t].inv, Empty)
    ensures Invariant(s.(threads := s.threads[t := DeqHead(s.threads[t].inv)]), g')
  {
    hide GoodLin, InLin, NotInLin, OthersInLin, Contents, Values, Linked;
    var l := s.threads[t];
    ThreadIsOk(s, g, t);
    var lin' := TakeBack(Fifo, s.history, g.lin, t, l.inv);
    g' := g.(lin := lin');
    OthersDontOwn(s, g, t, |s.mem|);
    LinkedLin(s, g, lin');
    StepKeeps(s, g, s.(threads := s.threads[t := DeqHead(l.inv)]), g', t, l.inv, |s.mem|);
  }

  lemma LinkedLin(s: State, g: Ghost, lin': seq<Entry>)
    requires Linked(s.mem, s.head, s.tail, g)
    ensures Linked(s.mem, s.head, s.tail, g.(lin := lin'))
  {
  }

  /** The compare-and-swap on head succeeds: the dequeue takes effect and returns the value
      at the front.  Head stays at or before tail. */
  lemma DequeueKeeps(s: State, g: Ghost, t: Tid) returns (g': Ghost)
    requires Invariant(s, g) && t in s.threads && s.threads[t].DeqSwing? && s.head == s.threads[t].head
    ensures var l := s.threads[t];
      && l.next.At?
      && Invariant(s.(head := l.next.addr, threads := s.threads[t := Done(l.inv, Got(l.value))]), g')
  {
    hide GoodLin, InLin, NotInLin, OthersInLin, Contents, Values, Linked, Agrees;
    var l := s.threads[t];
    ThreadIsOk(s, g, t);
    FrontNode(s, g, l.head, l.next);
    var s' := s.(head := l.next.addr, threads := s.threads[t := Done(l.inv, Got(l.value))]);
    var lin' := TakeEffect(Fifo, s.history, g.lin, t, l.inv);
    g' := g.(head := g.head + 1, lin := lin');
    LinkedDequeue(s, g, l.next.addr, lin');
    OthersDontOwn(s, g, t, |s.mem|);
    StepKeeps(s, g, s', g', t, l.inv, |s.mem|);
  }

  lemma FrontNode(s: State, g: Ghost, head: nat, next: Ref)
    requires Linked(s.mem, s.head, s.tail, g) && Agrees(s.mem, g) && head == s.head && LinkRead(s, g, head, next)
    requires g.pos[head] < g.tail
    ensures g.pos[head] == g.head < g.tail && g.chain[g.head + 1] == next.addr
    ensures Contents(Fifo, g.lin) != [] && Contents(Fifo, g.lin)[0] == ValueOf(s.mem, next)
  {
    assert LinkedAt(s.mem, g.chain, g.pos, g.head);
    assert g.chain[g.head + 1..][0] == next.addr;
  }

  lemma LinkedDequeue(s: State, g: Ghost, next: nat, lin': seq<Entry>)
    requires Linked(s.mem, s.head, s.tail, g) && Agrees(s.mem, g) && g.head < g.tail && g.chain[g.head + 1] == next
    requires Contents(Fifo, g.lin) != [] && Contents(Fifo, lin') == Contents(Fifo, g.lin)[1..]
    ensures var g' := g.(head := g.head + 1, lin := lin');
      Linked(s.mem, next, s.tail, g') && Agrees(s.mem, g')
  {
    hide Contents;
    assert LinkedAt(s.mem, g.chain, g.pos, g.head + 1);
    assert g.chain[g.head + 1..][1..] == g.chain[g.head + 2..];
    assert Values(s.mem, g.chain[g.head + 1..])[1..] == Values(s.mem, g.chain[g.head + 2..]);
  }

  lemma DoneKeeps(s: State, g: Ghost, t: Tid)
    requires Invariant(s, g) && t in s.threads && s.threads[t].Done?
    ensures Invariant(s.(history := s.history + [Resp(t, s.threads[t].ret)], threads := s.threads - {t}), g)
  {
    hide GoodLin, InLin, NotInLin, Linked, Agrees;
    var l := s.threads[t];
    ThreadIsOk(s, g, t);
    var s' := s.(history := s.history + [Resp(t, l.ret)], threads := s.threads - {t});
    Respond(Fifo, s.history, g.lin, t, l.inv, l.ret);
    OthersDontOwn(s, g, t, |s.mem|);
    assert s'.history == s.history + [Resp(t, l.ret)];
    SharedSame(s, s', g);
    StepKeeps(s, g, s', g, t, l.inv, |s.mem|);
  }

  lemma EnqueueStepKeeps(s: State, g: Ghost, t: Tid, spurious: bool) returns (g': Ghost)
    requires Invariant(s, g) && t in s.threads
    requires var l := s.threads[t]; l.EnqTail? || l.EnqNext? || l.EnqCheck? || l.EnqLink? || l.EnqHelp? || l.EnqSwing?
    ensures Invariant(StepThread(s, t, s.threads[t], spurious), g')
  {
    hide GoodLin, InLin, NotInLin, Agrees;
    g' := g;
    ThreadIsOk(s, g, t);
    match s.threads[t] {
      case EnqTail(i, node) => LocalStepKeeps(s, g, t, EnqNext(i, node, s.tail));
      case EnqNext(i, node, tail) => LocalStepKeeps(s, g, t, EnqCheck(i, node, tail, NextOf(s.mem, tail)));
      case EnqCheck(i, node, tail, next) =>
        LocalStepKeeps(s, g, t, if tail != s.tail then EnqTail(i, node)
                                else if next == Null then EnqLink(i, node, tail) else EnqHelp(i, node, tail, next));
      case EnqLink(i, node, tail) =>
        if NextOf(s.mem, tail) == Null && !spurious {
          g' := LinkKeeps(s, g, t);
        } else {
          LocalStepKeeps(s, g, t, EnqTail(i, node));
        }
      case EnqHelp(i, node, tail, next) => g' := SwingKeeps(s, g, t, tail, next, spurious, EnqTail(i, node));
      case EnqSwing(i, node, tail) => g' := SwingKeeps(s, g, t, tail, At(node), spurious, Done(i, Ack));
    }
  }

  lemma DequeueStepKeeps(s: State, g: Ghost, t: Tid, spurious: bool) returns (g': Ghost)
    requires Invariant(s, g) && t in s.threads
    requires var l := s.threads[t];
      l.DeqHead? || l.DeqTail? || l.DeqNext? || l.DeqCheck? || l.DeqHelp? || l.DeqValue? || l.DeqSwing? || l.Done?
    ensures Invariant(StepThread(s, t, s.threads[t], spurious), g')
  {
    hide GoodLin, InLin, NotInLin, Agrees;
    g' := g;
    ThreadIsOk(s, g, t);
    match s.threads[t] {
      case DeqHead(i) => LocalStepKeeps(s, g, t, DeqTail(i, s.head));
      case DeqTail(i, head) => LocalStepKeeps(s, g, t, DeqNext(i, head, s.tail));
      case DeqNext(_, _, _) => g' := ReadNextKeeps(s, g, t);
      case DeqCheck(_, _, _, _) => g' := CheckKeeps(s, g, t);
      case DeqHelp(i, tail, next) => g' := SwingKeeps(s, g, t, tail, next, spurious, DeqHead(i));
      case DeqValue(i, head, next) =>
        NextInRange(s, g, head, next);
        LocalStepKeeps(s, g, t, DeqSwing(i, head, next, ValueOf(s.mem, next)));
      case DeqSwing(i, head, next, value) =>
        if s.head == head && next.At? && !spurious {
          g' := DequeueKeeps(s, g, t);
        } else {
          LocalStepKeeps(s, g, t, DeqHead(i));
        }
      case Done(_, _) => DoneKeeps(s, g, t);
    }
  }

  lemma NextInRange(s: State, g: Ghost, head: nat, next: Ref)
    requires Linked(s.mem, s.head, s.tail, g) && LinkRead(s, g, head, next)
    ensures next.addr < |s.mem|
  {
    var k := g.pos[head];
    assert LinkedAt(s.mem, g.chain, g.pos, k);
    assert k + 1 < |g.chain| && LinkedAt(s.mem, g.chain, g.pos, k + 1);
  }

  /** Every step of every thread keeps the invariant. */
  lemma NextKeeps(s: State, g: Ghost, a: Action) returns (g': Ghost)
    requires Invariant(s, g)
    ensures Invariant(Next(s, a), g')
  {
    hide Invariant, StepThread, StartCall;
    g' := g;
    if a.Start? {
      if a.tid !in s.threads {
        StartKeeps(s, g, a.tid, a.call);
      }
    } else if a.tid in s.threads {
      var l := s.threads[a.tid];
      if l.EnqTail? || l.EnqNext? || l.EnqCheck? || l.EnqLink? || l.EnqHelp? || l.EnqSwing? {
        g' := EnqueueStepKeeps(s, g, a.tid, a.spurious);
      } else {
        g' := DequeueStepKeeps(s, g, a.tid, a.spurious);
      }
    }
  }

  lemma InitOk()
    ensures Invariant(INIT, Ghost([0], map[0 := 0], 0, 0, []))
  {
    var g := Ghost([0], map[0 := 0], 0, 0, []);
    assert g.chain[1..] == [];
  }

  lemma {:induction false} RunKeeps(schedule: seq<Action>) returns (g: Ghost)
    ensures Invariant(Run(schedule), g)
  {
    if schedule == [] {
      g := Ghost([0], map[0 := 0], 0, 0, []);
      InitOk();
    } else {
      g := RunKeeps(schedule[..|schedule| - 1]);
      g := NextKeeps(Run(schedule[..|schedule| - 1]), g, schedule[|schedule| - 1]);
    }
  }

  /** Every run of any number of threads is linearizable as a FIFO queue. */
  lemma QueueIsLinearizable(schedule: seq<Action>)
    ensures Linearizable(Fifo, Run(schedule).history)
  {
    hide GoodLin, Run;
    var g := RunKeeps(schedule);
    GoodIsLinearizable(Fifo, Run(schedule).history, g.lin);
  }

  // ---------- Head and tail ----------

  /** The node reached from `from` by `n` next pointers. */
  function Walk(mem: seq<Cell>, from: nat, n: nat): Ref {
    if n == 0 then At(from)
    else
      match Walk(mem, from, n - 1)
      case Null => Null
      case At(a) => NextOf(mem, a)
  }

  lemma {:induction false} WalkChain(s: State, g: Ghost, k: nat, n: nat)
    requires Linked(s.mem, s.head, s.tail, g) && k + n < |g.chain|
    ensures Walk(s.mem, g.chain[k], n) == At(g.chain[k + n])
  {
    if n > 0 {
      WalkChain(s, g, k, n - 1);
      assert LinkedAt(s.mem, g.chain, g.pos, k + (n - 1));
    }
  }

  ghost predicate Reaches(mem: seq<Cell>, from: nat, to: nat) {
    exists n: nat :: Walk(mem, from, n) == At(to)
  }

  lemma HeadReachesTail(s: State, g: Ghost)
    requires Linked(s.mem, s.head, s.tail, g)
    ensures Reaches(s.mem, s.head, s.tail)
  {
    var n: nat := g.tail - g.head;
    WalkChain(s, g, g.head, n);
    assert g.chain[g.head] == s.head && g.chain[g.tail] == s.tail;
    assert Walk(s.mem, s.head, n) == At(s.tail);
  }

  /** In every reachable state tail is reached from head, and tail lags the last node by at
      most one. */
  lemma TailFollowsHead(schedule: seq<Action>)
    ensures var s := Run(schedule);
      && Reaches(s.mem, s.head, s.tail)
      && (NextOf(s.mem, s.tail) == Null || NextOf(s.mem, NextOf(s.mem, s.tail).addr) == Null)
  {
    hide Run, GoodLin, Agrees;
    var g := RunKeeps(schedule);
    var s := Run(schedule);
    HeadReachesTail(s, g);
    assert LinkedAt(s.mem, g.chain, g.pos, g.tail);
    if g.tail + 1 < |g.chain| {
      assert LinkedAt(s.mem, g.chain, g.pos, g.tail + 1);
    }
  }
}
