/** Linearizability of concurrent histories over a sequential FIFO or LIFO container.

    A history is the sequence of invocations and responses that callers can see.  It is
    linearizable when its operations can be put into one sequence that is legal for the
    sequential container, explains every response, and never orders an operation before one
    that had already responded when it was invoked. */
module Linearizability {

  type Tid = nat

  datatype Call = Put(value: int) | Take
  datatype Ret = Ack | Empty | Got(value: int)
  datatype Event = Inv(tid: Tid, call: Call) | Resp(tid: Tid, ret: Ret)
  type History = seq<Event>

  datatype Order = Fifo | Lifo

  // ---------- The sequential container ----------

  /** The result of a call on a container with contents `q`. */
  function Result(order: Order, q: seq<int>, call: Call): Ret {
    match call
    case Put(_) => Ack
    case Take => if q == [] then Empty else Got(if order == Fifo then q[0] else q[|q| - 1])
  }

  /** Its contents afterwards. */
  function After(order: Order, q: seq<int>, call: Call): seq<int> {
    match call
    case Put(v) => q + [v]
    case Take => if q == [] then q else if order == Fifo then q[1..] else q[..|q| - 1]
  }

  // ---------- Linearizations ----------

  /** One linearized operation: where it was invoked, what it returns, and how long the history
      was when it took effect. */
  datatype Entry = Entry(inv: nat, tid: Tid, call: Call, ret: Ret, stamp: nat)

  /** Contents of the container after all entries. */
  function Contents(order: Order, lin: seq<Entry>): seq<int> {
    if lin == [] then [] else After(order, Contents(order, lin[..|lin| - 1]), lin[|lin| - 1].call)
  }

  /** Every entry returns what the sequential container returns at its place. */
  ghost predicate Legal(order: Order, lin: seq<Entry>) {
    lin == [] ||
    var before, last := lin[..|lin| - 1], lin[|lin| - 1];
    Legal(order, before) && last.ret == Result(order, Contents(order, before), last.call)
  }

  /** `r` is the response to the invocation `i`: the next event of the same thread. */
  ghost predicate Responds(h: History, i: nat, r: nat) {
    && i < r < |h| && h[i].Inv? && h[r].Resp? && h[i].tid == h[r].tid
    && forall k | i < k < r :: h[k].tid != h[i].tid
  }

  /** The entries are operations of the history, each at most once. */
  ghost predicate FromHistory(h: History, lin: seq<Entry>) {
    && (forall k | 0 <= k < |lin| :: lin[k].inv < |h| && h[lin[k].inv] == Inv(lin[k].tid, lin[k].call))
    && (forall j, k | 0 <= j < k < |lin| :: lin[j].inv != lin[k].inv)
  }

  /** Every response is that of an entry. */
  ghost predicate Explained(h: History, lin: seq<Entry>) {
    forall r: nat | r < |h| && h[r].Resp? ::
      exists k :: 0 <= k < |lin| && Responds(h, lin[k].inv, r) && lin[k].ret == h[r].ret
  }

  /** An operation that responded before another was invoked comes first. */
  ghost predicate RealTimeOrder(h: History, lin: seq<Entry>) {
    forall j, k, r | 0 <= j < |lin| && 0 <= k < |lin| && r < lin[k].inv && 0 <= r && Responds(h, lin[j].inv, r) :: j < k
  }

  ghost predicate Linearizes(order: Order, h: History, lin: seq<Entry>) {
    Legal(order, lin) && FromHistory(h, lin) && Explained(h, lin) && RealTimeOrder(h, lin)
  }

  ghost predicate Linearizable(order: Order, h: History) {
    exists lin :: Linearizes(order, h, lin)
  }

  // ---------- Stamped linearizations ----------

  /** What an algorithm keeps while it runs: entries are stamped with the length of the history
      at the moment they take effect. */
  ghost predicate Stamped(h: History, lin: seq<Entry>) {
    && (forall k | 0 <= k < |lin| :: lin[k].inv < lin[k].stamp <= |h|)
    && (forall j, k | 0 <= j < k < |lin| :: lin[j].stamp <= lin[k].stamp)
  }

  /** Responses come after the moment their operation took effect. */
  ghost predicate StampsExplain(h: History, lin: seq<Entry>) {
    forall r: nat | r < |h| && h[r].Resp? ::
      exists k :: 0 <= k < |lin| && Responds(h, lin[k].inv, r) && lin[k].ret == h[r].ret && lin[k].stamp <= r
  }

  ghost predicate GoodLin(order: Order, h: History, lin: seq<Entry>) {
    Legal(order, lin) && FromHistory(h, lin) && Stamped(h, lin) && StampsExplain(h, lin)
  }

  lemma OneInvocation(h: History, i: nat, j: nat, r: nat)
    requires Responds(h, i, r) && Responds(h, j, r)
    ensures i == j
  {
    assert !(i < j) && !(j < i);
  }

  /** A stamped linearization linearizes the history: stamps give the real-time order. */
  lemma GoodIsLinearizable(order: Order, h: History, lin: seq<Entry>)
    requires GoodLin(order, h, lin)
    ensures Linearizable(order, h)
  {
    forall j, k, r | 0 <= j < |lin| && 0 <= k < |lin| && r < lin[k].inv && 0 <= r && Responds(h, lin[j].inv, r)
      ensures j < k
    {
      var e :| 0 <= e < |lin| && Responds(h, lin[e].inv, r) && lin[e].ret == h[r].ret && lin[e].stamp <= r;
      OneInvocation(h, lin[j].inv, lin[e].inv, r);
      assert e == j;
    }
    assert Linearizes(order, h, lin);
  }

  // ---------- How a run extends its linearization ----------

  /** The operation invoked at `i` by `t` has not responded. */
  ghost predicate Pending(h: History, t: Tid, i: nat) {
    i < |h| && h[i].Inv? && h[i].tid == t && forall k | i < k < |h| :: h[k].tid != t
  }

  ghost predicate InLin(lin: seq<Entry>, i: nat, ret: Ret) {
    exists k :: 0 <= k < |lin| && lin[k].inv == i && lin[k].ret == ret
  }

  /** Operations other than `i` have the same entries. */
  ghost predicate OthersInLin(lin: seq<Entry>, lin': seq<Entry>, i: nat) {
    && (forall j, ret :: j != i && InLin(lin, j, ret) ==> InLin(lin', j, ret))
    && (forall j :: j != i && NotInLin(lin, j) ==> NotInLin(lin', j))
  }

  ghost predicate NotInLin(lin: seq<Entry>, i: nat) {
    forall k | 0 <= k < |lin| :: lin[k].inv != i
  }

  lemma PendingStays(h: History, e: Event, t: Tid, i: nat)
    requires Pending(h, t, i) && e.tid != t
    ensures Pending(h + [e], t, i)
  {
  }

  lemma RespondsStays(h: History, e: Event, i: nat, r: nat)
    requires Responds(h, i, r)
    ensures Responds(h + [e], i, r)
  {
  }

  /** A new invocation. */
  lemma Invoke(order: Order, h: History, lin: seq<Entry>, t: Tid, call: Call)
    requires GoodLin(order, h, lin)
    ensures GoodLin(order, h + [Inv(t, call)], lin) && Pending(h + [Inv(t, call)], t, |h|) && NotInLin(lin, |h|)
  {
    hide Legal;
    var h' := h + [Inv(t, call)];
    forall r: nat | r < |h'| && h'[r].Resp?
      ensures exists k :: 0 <= k < |lin| && Responds(h', lin[k].inv, r) && lin[k].ret == h'[r].ret && lin[k].stamp <= r
    {
      var k :| 0 <= k < |lin| && Responds(h, lin[k].inv, r) && lin[k].ret == h[r].ret && lin[k].stamp <= r;
      RespondsStays(h, Inv(t, call), lin[k].inv, r);
    }
  }

  /** A response of an operation that has taken effect. */
  lemma Respond(order: Order, h: History, lin: seq<Entry>, t: Tid, i: nat, ret: Ret)
    requires GoodLin(order, h, lin) && Pending(h, t, i) && InLin(lin, i, ret)
    ensures GoodLin(order, h + [Resp(t, ret)], lin)
  {
    hide Legal;
    var h' := h + [Resp(t, ret)];
    forall r: nat | r < |h'| && h'[r].Resp?
      ensures exists k :: 0 <= k < |lin| && Responds(h', lin[k].inv, r) && lin[k].ret == h'[r].ret && lin[k].stamp <= r
    {
      if r < |h| {
        var k :| 0 <= k < |lin| && Responds(h, lin[k].inv, r) && lin[k].ret == h[r].ret && lin[k].stamp <= r;
        RespondsStays(h, Resp(t, ret), lin[k].inv, r);
      } else {
        var k :| 0 <= k < |lin| && lin[k].inv == i && lin[k].ret == ret;
        assert Responds(h', lin[k].inv, r);
      }
    }
  }

  /** An operation takes effect now. */
  lemma TakeEffect(order: Order, h: History, lin: seq<Entry>, t: Tid, i: nat) returns (lin': seq<Entry>)
    requires GoodLin(order, h, lin) && Pending(h, t, i) && NotInLin(lin, i)
    ensures var q := Contents(order, lin);
      && GoodLin(order, h, lin') && InLin(lin', i, Result(order, q, h[i].call))
           && Contents(order, lin') == After(order, q, h[i].call)
    ensures OthersInLin(lin, lin', i)
  {
    var e := Entry(i, t, h[i].call, Result(order, Contents(order, lin), h[i].call), |h|);
    lin' := lin + [e];
    assert lin'[|lin|] == e;
    forall j, ret | j != i && InLin(lin, j, ret)
      ensures InLin(lin', j, ret)
    {
      InLinStays(lin, e, j, ret);
    }
    assert (lin + [e])[..|lin|] == lin && (lin + [e])[|lin|] == e;
    AppendKeeps(h, lin, e);
  }

  lemma AppendKeeps(h: History, lin: seq<Entry>, e: Entry)
    requires FromHistory(h, lin) && Stamped(h, lin) && StampsExplain(h, lin) && NotInLin(lin, e.inv)
    requires e.inv < e.stamp == |h| && h[e.inv] == Inv(e.tid, e.call)
    ensures FromHistory(h, lin + [e]) && Stamped(h, lin + [e]) && StampsExplain(h, lin + [e])
  {
    forall r: nat | r < |h| && h[r].Resp?
      ensures exists k :: 0 <= k < |lin + [e]| && Responds(h, (lin + [e])[k].inv, r)
                && (lin + [e])[k].ret == h[r].ret && (lin + [e])[k].stamp <= r
    {
      var k :| 0 <= k < |lin| && Responds(h, lin[k].inv, r) && lin[k].ret == h[r].ret && lin[k].stamp <= r;
      assert (lin + [e])[k] == lin[k];
    }
  }

  /** The entries without position `x`. */
  function Without(lin: seq<Entry>, x: nat): (r: seq<Entry>)
    requires x < |lin|
  {
    lin[..x] + lin[x + 1..]
  }

  lemma WithoutAt(lin: seq<Entry>, x: nat)
    requires x < |lin|
    ensures var r := Without(lin, x);
      && |r| == |lin| - 1
      && (forall k {:trigger r[k]} | 0 <= k < |r| :: r[k] == lin[if k < x then k else k + 1])
      && (forall k {:trigger lin[k]} | 0 <= k < |lin| && k != x :: lin[k] == r[if k < x then k else k - 1])
  {
    hide Without;
    var r := Without(lin, x);
    WithoutIndex(lin, x, 0);
    forall k {:trigger r[k]} | 0 <= k < |r|
      ensures r[k] == lin[if k < x then k else k + 1]
    {
      WithoutIndex(lin, x, k);
    }
    forall k {:trigger lin[k]} | 0 <= k < |lin| && k != x
      ensures lin[k] == r[if k < x then k else k - 1]
    {
      WithoutIndex(lin, x, if k < x then k else k - 1);
    }
  }

  lemma WithoutIndex(lin: seq<Entry>, x: nat, k: nat)
    requires x < |lin|
    ensures |Without(lin, x)| == |lin| - 1
    ensures k < |lin| - 1 ==> Without(lin, x)[k] == lin[if k < x then k else k + 1]
  {
  }

  lemma WithoutSplit(lin: seq<Entry>, x: nat)
    requires x < |lin|
    ensures x == |lin| - 1 ==> Without(lin, x) == lin[..x]
    ensures x < |lin| - 1 ==> Without(lin, x) == Without(lin[..|lin| - 1], x) + [lin[|lin| - 1]]
  {
    var n := |lin| - 1;
    if x == n {
      assert lin[x + 1..] == [];
    } else {
      SliceApart(lin, x, n);
    }
  }

  lemma SliceApart(lin: seq<Entry>, x: nat, n: nat)
    requires x < n == |lin| - 1
    ensures lin[..x] + lin[x + 1..] == (lin[..n][..x] + lin[..n][x + 1..]) + [lin[n]]
  {
    assert lin[..n][..x] == lin[..x] && lin[..n][x + 1..] == lin[x + 1..n];
    assert lin[x + 1..] == lin[x + 1..n] + [lin[n]];
  }

  lemma Snoc(order: Order, lin: seq<Entry>, e: Entry)
    ensures Contents(order, lin + [e]) == After(order, Contents(order, lin), e.call)
    ensures Legal(order, lin + [e]) <==> Legal(order, lin) && e.ret == Result(order, Contents(order, lin), e.call)
  {
    assert (lin + [e])[..|lin|] == lin;
  }

  /** Dropping a take that found nothing changes no other result and not the contents. */
  lemma {:induction false} WithoutEmptyTake(order: Order, lin: seq<Entry>, x: nat)
    requires x < |lin| && lin[x].call == Take && lin[x].ret == Empty && Legal(order, lin)
    ensures Contents(order, Without(lin, x)) == Contents(order, lin) && Legal(order, Without(lin, x))
    decreases |lin|
  {
    hide Without;
    var n := |lin| - 1;
    WithoutSplit(lin, x);
    if x < n {
      WithoutEmptyTake(order, lin[..n], x);
      Snoc(order, Without(lin[..n], x), lin[n]);
    }
  }

  /** A pending take that found the container empty is taken back. */
  lemma TakeBack(order: Order, h: History, lin: seq<Entry>, t: Tid, i: nat) returns (lin': seq<Entry>)
    requires GoodLin(order, h, lin) && Pending(h, t, i) && InLin(lin, i, Empty) && h[i].call == Take
    ensures GoodLin(order, h, lin') && NotInLin(lin', i) && Contents(order, lin') == Contents(order, lin)
    ensures OthersInLin(lin, lin', i)
  {
    var x: nat :| x < |lin| && lin[x].inv == i && lin[x].ret == Empty;
    lin' := Without(lin, x);
    WithoutEmptyTake(order, lin, x);
    WithoutFromHistory(h, lin, x);
    WithoutExplains(h, lin, t, i, x);
    WithoutKeepsOthers(lin, x);
  }

  lemma WithoutFromHistory(h: History, lin: seq<Entry>, x: nat)
    requires FromHistory(h, lin) && Stamped(h, lin) && x < |lin|
    ensures FromHistory(h, Without(lin, x)) && Stamped(h, Without(lin, x)) && NotInLin(Without(lin, x), lin[x].inv)
  {
    hide Without;
    WithoutAt(lin, x);
  }

  lemma WithoutExplains(h: History, lin: seq<Entry>, t: Tid, i: nat, x: nat)
    requires StampsExplain(h, lin) && Pending(h, t, i) && x < |lin| && lin[x].inv == i
    ensures StampsExplain(h, Without(lin, x))
  {
    hide Without;
    WithoutAt(lin, x);
    var lin' := Without(lin, x);
    forall r: nat | r < |h| && h[r].Resp?
      ensures exists k ::
                0 <= k < |lin'| && Responds(h, lin'[k].inv, r) && lin'[k].ret == h[r].ret && lin'[k].stamp <= r
    {
      var k :| 0 <= k < |lin| && Responds(h, lin[k].inv, r) && lin[k].ret == h[r].ret && lin[k].stamp <= r;
      assert k != x;
      assert lin'[if k < x then k else k - 1] == lin[k];
    }
  }

  lemma WithoutKeepsOthers(lin: seq<Entry>, x: nat)
    requires x < |lin|
    ensures OthersInLin(lin, Without(lin, x), lin[x].inv)
  {
    hide Without;
    WithoutAt(lin, x);
    forall j, ret | j != lin[x].inv && InLin(lin, j, ret)
      ensures InLin(Without(lin, x), j, ret)
    {
      var k :| 0 <= k < |lin| && lin[k].inv == j && lin[k].ret == ret;
      assert Without(lin, x)[if k < x then k else k - 1] == lin[k];
    }
  }

  lemma InLinStays(lin: seq<Entry>, e: Entry, i: nat, ret: Ret)
    requires InLin(lin, i, ret)
    ensures InLin(lin + [e], i, ret)
  {
    var k :| 0 <= k < |lin| && lin[k].inv == i && lin[k].ret == ret;
    assert (lin + [e])[k] == lin[k];
  }
}
