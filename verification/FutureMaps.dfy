/** The circular buffer of miniinfer/engine/future_map.py.  A sampled token is known by the slot
    reserved for it; a slot is identified for all time by how many slots were handed out before
    its batch (`stamp`) and its place in the batch (`offset`). */
module FutureMaps {
  import opened Wrappers
  import opened Pages

  datatype Slot = Slot(stamp: nat, offset: nat)

  /** The half-open index interval handed to one batch. */
  datatype FutureIndices = FutureIndices(first: nat, count: nat)

  /** A store of one batch's tokens: the batch, the first index written, the tokens. */
  datatype Store = Store(stamp: nat, first: nat, tokens: seq<int>)

  predicate Covers(w: Store, i: nat) {
    w.first <= i < w.first + |w.tokens|
  }

  predicate Apart(a: Store, b: Store) {
    a.first + |a.tokens| <= b.first || b.first + |b.tokens| <= a.first
  }

  /** The token at index `i` after the stores of `log`: that of the last one that covers it. */
  function Written(log: seq<Store>, i: nat): Option<int> {
    if log == [] then None
    else (
      var w := log[|log| - 1];
      if Covers(w, i) then Some(w.tokens[i - w.first]) else Written(log[..|log| - 1], i))
  }

  /** The position of the last store of a batch. */
  function LastStore(log: seq<Store>, stamp: nat): (k: Option<nat>)
    ensures k.Some? ==> k.value < |log| && log[k.value].stamp == stamp
    ensures k.Some? ==> forall l | k.value < l < |log| :: log[l].stamp != stamp
  {
    if log == [] then None
    else if log[|log| - 1].stamp == stamp then Some(|log| - 1)
    else LastStore(log[..|log| - 1], stamp)
  }

  /** The same batches stored at the same indices, with whatever tokens. */
  predicate SameShape(a: seq<Store>, b: seq<Store>) {
    |a| == |b| && forall l | 0 <= l < |a| :: a[l].first == b[l].first && |a[l].tokens| == |b[l].tokens|
  }

  /** Whatever the stores after position `k` write, index `i` ends with the token of store `k`. */
  ghost predicate OutlastsAny(log: seq<Store>, k: nat, i: nat)
    requires k < |log| && Covers(log[k], i)
  {
    EndsWith(log[..k + 1], log[k + 1..], i, log[k].tokens[i - log[k].first])
  }

  ghost predicate EndsWith(before: seq<Store>, after: seq<Store>, i: nat, token: int) {
    forall later | SameShape(later, after) :: Written(before + later, i) == Some(token)
  }

  lemma {:induction false} UncoveredStays(before: seq<Store>, later: seq<Store>, i: nat)
    requires forall l | 0 <= l < |later| :: !Covers(later[l], i)
    ensures Written(before + later, i) == Written(before, i)
    decreases |later|
  {
    if later == [] {
      assert before + later == before;
    } else {
      var n := |later| - 1;
      assert (before + later)[..|before + later| - 1] == before + later[..n];
      UncoveredStays(before, later[..n], i);
    }
  }

  lemma {:induction false} LastStoreIs(log: seq<Store>, k: nat)
    requires k < |log| && forall l | k < l < |log| :: log[l].stamp != log[k].stamp
    ensures LastStore(log, log[k].stamp) == Some(k)
    decreases |log|
  {
    if k < |log| - 1 {
      LastStoreIs(log[..|log| - 1], k);
    }
  }

  lemma {:induction false} CoveredIsWritten(log: seq<Store>, k: nat, i: nat)
    requires k < |log| && Covers(log[k], i)
    ensures Written(log, i).Some?
    decreases |log|
  {
    if k < |log| - 1 {
      CoveredIsWritten(log[..|log| - 1], k, i);
    }
  }

  lemma LastIsWritten(log: seq<Store>, k: nat, i: nat)
    requires k < |log| && Covers(log[k], i) && forall l | k < l < |log| :: !Covers(log[l], i)
    ensures Written(log, i) == Some(log[k].tokens[i - log[k].first])
  {
    var before, after := log[..k + 1], log[k + 1..];
    assert log == before + after && before[..k] == log[..k];
    assert forall l | 0 <= l < |after| :: after[l] == log[l + (k + 1)];
    UncoveredStays(before, after, i);
  }

  /** A store with every token replaced. */
  function Filled(w: Store, token: int): (r: Store)
    ensures r.first == w.first && |r.tokens| == |w.tokens|
    ensures forall j | 0 <= j < |r.tokens| :: r.tokens[j] == token
  {
    Store(w.stamp, w.first, seq(|w.tokens|, _ => token))
  }

  function AllFilled(log: seq<Store>, token: int): (r: seq<Store>)
    ensures SameShape(r, log)
    ensures forall l | 0 <= l < |r| :: forall j | 0 <= j < |r[l].tokens| :: r[l].tokens[j] == token
  {
    if log == [] then [] else AllFilled(log[..|log| - 1], token) + [Filled(log[|log| - 1], token)]
  }

  lemma {:induction false} CoveredChanges(before: seq<Store>, later: seq<Store>, i: nat, l: nat, token: int)
    requires l < |later| && Covers(later[l], i)
    requires forall k | 0 <= k < |later| :: forall j | 0 <= j < |later[k].tokens| :: later[k].tokens[j] == token
    ensures Written(before + later, i) == Some(token)
    decreases |later|
  {
    var n := |later| - 1;
    var all := before + later;
    assert all[|all| - 1] == later[n] && all[..|all| - 1] == before + later[..n];
    if !Covers(later[n], i) {
      CoveredChanges(before, later[..n], i, l, token);
    }
  }

  /** A stored token outlasts the later stores, whatever these write, exactly if none of them covers
      its index. */
  lemma OutlastsExactly(log: seq<Store>, k: nat, i: nat)
    requires k < |log| && Covers(log[k], i)
    ensures OutlastsAny(log, k, i) <==> forall l | k < l < |log| :: !Covers(log[l], i)
  {
    var token := log[k].tokens[i - log[k].first];
    var before, after := log[..k + 1], log[k + 1..];
    assert before[..k] == log[..k] && Written(before, i) == Some(token);
    if l: nat :| l < |after| && Covers(after[l], i) {
      assert after[l] == log[k + 1 + l];
      CoveredChanges(before, AllFilled(after, token + 1), i, l, token + 1);
    } else {
      assert forall l | k < l < |log| :: log[l] == after[l - (k + 1)];
      forall later | SameShape(later, after)
        ensures Written(before + later, i) == Some(token)
      {
        UncoveredStays(before, later, i);
      }
    }
  }

  /** What is known to be stored once a batch's tokens are. */
  ghost function WithTokens(stored: map<Slot, int>, stamp: nat, tokens: seq<int>): (r: map<Slot, int>)
    ensures forall j: nat | j < |tokens| :: Slot(stamp, j) in r && r[Slot(stamp, j)] == tokens[j]
    ensures forall s | s in stored && (s.stamp != stamp || s.offset >= |tokens|) :: s in r && r[s] == stored[s]
    ensures forall s | s in r :: s in stored || (s.stamp == stamp && s.offset < |tokens|)
  {
    if tokens == [] then stored
    else (
      var n := |tokens| - 1;
      WithTokens(stored, stamp, tokens[..n])[Slot(stamp, n) := tokens[n]])
  }

  ghost predicate StoredAt(stored: map<Slot, int>, log: seq<Store>, s: Slot)
    requires s in stored
  {
    var k := LastStore(log, s.stamp);
    k.Some? && s.offset < |log[k.value].tokens| && stored[s] == log[k.value].tokens[s.offset]
  }

  /** The buffer is what the stores wrote. */
  ghost predicate BufferHolds(buf: seq<int>, log: seq<Store>) {
    forall i: nat | Written(log, i).Some? :: i < |buf| && buf[i] == Written(log, i).value
  }

  lemma HeldAt(buf: seq<int>, log: seq<Store>, i: nat)
    requires BufferHolds(buf, log) && Written(log, i).Some?
    ensures i < |buf| && buf[i] == Written(log, i).value
  {
  }

  lemma StoreKeepsBuffer(was: seq<int>, now: seq<int>, log: seq<Store>, w: Store)
    requires BufferHolds(was, log) && |now| == |was| && w.first + |w.tokens| <= |was|
    requires forall i | 0 <= i < |was| :: now[i] == if Covers(w, i) then w.tokens[i - w.first] else was[i]
    ensures BufferHolds(now, log + [w])
  {
    assert (log + [w])[..|log|] == log;
  }

  lemma SmallMod(x: nat, limit: nat)
    requires limit > 0
    ensures x < limit ==> x % limit == x
    ensures limit <= x < 2 * limit ==> x % limit == x - limit
  {
  }

  /** Advancing the cursor step by step keeps it at the total modulo the limit. */
  lemma ModStep(total: nat, n: nat, limit: nat)
    requires limit > 0
    ensures (total % limit + n) % limit == (total + n) % limit
  {
    var q, r := total / limit, total % limit;
    assert total == limit * q + r;
    AddMultiple(r + n, q, limit);
  }

  lemma AddMultiple(x: nat, q: nat, limit: nat)
    requires limit > 0
    ensures (limit * q + x) % limit == x % limit
    decreases q
  {
    if q > 0 {
      AddMultiple(x, q - 1, limit);
      assert limit * q + x == (limit * (q - 1) + x) + limit;
      OneLap(limit * (q - 1) + x, limit);
    }
  }

  lemma OneLap(y: nat, limit: nat)
    requires limit > 0
    ensures (y + limit) % limit == y % limit
  {
    var q, r := y / limit, y % limit;
    assert y == limit * q + r;
    assert y + limit == (q + 1) * limit + r;
    DivModUnique(y + limit, limit, q + 1, r);
  }

  class FutureMap {
    const maxRunning: nat
    const futureLimit: nat
    const tokenIdsBuf: array<int>
    var futureCt: nat
    /** All slots handed out so far, the batch sizes by stamp, the tokens stored, and the stores in
        their order. */
    ghost var total: nat
    ghost var sizes: map<nat, nat>
    ghost var stored: map<Slot, int>
    ghost var log: seq<Store>

    function Wrap(n: nat): (r: nat)
      requires futureLimit > 0
      ensures r < futureLimit
    {
      n % futureLimit
    }

    lemma WrapZero()
      requires futureLimit > 0
      ensures Wrap(0) == 0
    {
      SmallMod(0, futureLimit);
    }

    lemma WrapIs(n: nat, r: nat)
      requires futureLimit > 0 && r < futureLimit && (n == r || n == r + futureLimit)
      ensures Wrap(n) == r
    {
      SmallMod(n, futureLimit);
    }

    lemma WrapAgain(n: nat, d: nat)
      requires futureLimit > 0
      ensures Wrap(Wrap(n) + d) == Wrap(n + d)
      ensures d <= futureLimit ==>
          Wrap(n + d) == if Wrap(n) + d < futureLimit then Wrap(n) + d else Wrap(n) + d - futureLimit
    {
      ModStep(n, d, futureLimit);
      SmallMod(Wrap(n) + d, futureLimit);
    }

    /** The buffer index of a slot: 1-based, so that its placeholder is negative. */
    ghost function Index(s: Slot): (i: nat)
      requires futureLimit > 0
      ensures 1 <= i
    {
      Wrap(s.stamp) + 1 + s.offset
    }

    /** Since the slot's batch was given its slots, that batch included, at most `futureLimit`
        slots were handed out. */
    ghost predicate Live(s: Slot)
      reads this`total
    {
      s.stamp + futureLimit >= total
    }

    /** A slot that some batch was given. */
    ghost predicate Given(s: Slot)
      reads this`sizes
    {
      s.stamp in sizes && s.offset < sizes[s.stamp]
    }

    ghost predicate Valid()
      reads this, tokenIdsBuf
    {
      && futureLimit >= maxRunning > 0 && tokenIdsBuf.Length == futureLimit + 2 * maxRunning
      && futureCt == Wrap(total) && Batches(sizes, total) && LogOk(stored, log) && BufferHolds(tokenIdsBuf[..], log)
    }

    /** The batches were given one stretch of slots after the other. */
    ghost predicate Batches(sizes: map<nat, nat>, total: nat) {
      && (forall a | a in sizes :: 0 < sizes[a] <= maxRunning && a + sizes[a] <= total)
      && (forall a, b | a in sizes && b in sizes && a < b :: a + sizes[a] <= b)
    }

    /** Every store is that of a batch, at its indices; what is stored comes from its batch's last
        store; and no later store of another batch touches the indices of a live one. */
    ghost predicate LogOk(stored: map<Slot, int>, log: seq<Store>)
      requires futureLimit > 0
      reads this`sizes, this`total
    {
      && (forall k | 0 <= k < |log| :: IsStore(log[k]))
      && (forall s | s in stored :: Given(s) && StoredAt(stored, log, s))
      && (forall k, l | 0 <= k < l < |log| && Live(Slot(log[k].stamp, 0)) && log[k].stamp != log[l].stamp ::
           Apart(log[k], log[l]))
    }

    ghost predicate IsStore(w: Store)
      requires futureLimit > 0
      reads this`sizes
    {
      w.stamp in sizes && w.first == Wrap(w.stamp) + 1 && |w.tokens| == sizes[w.stamp]
    }

    lemma OneMoreBatch(sizes: map<nat, nat>, total: nat, n: nat)
      requires Batches(sizes, total) && 0 < n <= maxRunning
      ensures Batches(sizes[total := n], total + n) && total !in sizes
      ensures forall a | a in sizes :: a < total && sizes[total := n][a] == sizes[a]
    {
      assert forall a | a in sizes :: a + sizes[a] <= total && a < total;
    }

    constructor (maxRunning: nat, maxChunks: nat)
      requires maxRunning > 0
      ensures Valid() && fresh(tokenIdsBuf) && this.maxRunning == maxRunning
      ensures futureLimit == maxRunning * (3 + maxChunks)
      ensures total == 0 && sizes == map[] && stored == map[] && log == []
    {
      this.maxRunning := maxRunning;
      Limit(maxRunning, maxChunks);
      futureLimit := maxRunning * (3 + maxChunks);
      tokenIdsBuf := new int[maxRunning * (3 + maxChunks) + 2 * maxRunning];
      futureCt, total, sizes, stored, log := 0, 0, map[], map[], [];
      new;
      WrapZero();
    }

    static lemma Limit(n: nat, c: nat)
      ensures n * (3 + c) >= n
    {
      assert n * (3 + c) == n * 3 + n * c;
    }

    /** Every index handed out lies inside the buffer, so the clamp in `resolve` never acts. */
    lemma IndexInBuffer(s: Slot)
      requires Valid() && Given(s)
      ensures 1 <= Index(s) < tokenIdsBuf.Length
    {
      assert s.stamp in sizes && sizes[s.stamp] <= maxRunning;
    }

    lemma IndexOf()
      requires futureLimit > 0
      ensures forall s: Slot :: Index(s) == Wrap(s.stamp) + 1 + s.offset
    {
    }

    /** `alloc_future_indices`. */
    method AllocFutureIndices(batchSize: nat) returns (fi: FutureIndices)
      requires Valid() && 0 < batchSize <= maxRunning
      modifies this`futureCt, this`total, this`sizes
      ensures Valid() && total == old(total) + batchSize && sizes == old(sizes)[old(total) := batchSize]
      ensures fi.count == batchSize
      ensures forall j: nat | j < batchSize :: fi.first + j == Index(Slot(old(total), j)) && Given(Slot(old(total), j))
      ensures forall s | old(Given(s)) :: Given(s) && s.stamp < total
    {
      hide Wrap, Batches, Index;
      IndexOf();
      WrapAgain(total, batchSize);
      OneMoreBatch(sizes, total, batchSize);
      var curCt := futureCt;
      futureCt := Wrap(curCt + batchSize);
      fi := FutureIndices(curCt + 1, batchSize);
      sizes := sizes[total := batchSize];
      total := total + batchSize;
    }

    /** One lap later the index is used again: past `futureLimit` a placeholder may be overwritten. */
    lemma LapReusesIndex(s: Slot)
      requires futureLimit > 0
      ensures Index(Slot(s.stamp + futureLimit, s.offset)) == Index(s)
    {
      OneLap(s.stamp, futureLimit);
    }

    /** The indices of a live batch and of a later one do not meet. */
    lemma LaterApart(a: nat, b: nat)
      requires futureLimit > 0 && Batches(sizes, total) && a in sizes && b in sizes && a < b && Live(Slot(a, 0))
      ensures Wrap(a) + 1 + sizes[a] <= Wrap(b) + 1 || Wrap(b) + 1 + sizes[b] <= Wrap(a) + 1
    {
      hide Wrap;
      var d := b - a;
      assert a + sizes[a] <= b && b + sizes[b] <= total;
      WrapAgain(a, d);
    }

    /** Slots of two live batches never share an index. */
    lemma LiveApart(a: Slot, b: Slot)
      requires Valid() && Given(a) && Given(b) && Live(a) && Live(b) && Index(a) == Index(b)
      ensures a == b
    {
      if a.stamp < b.stamp {
        LaterApart(a.stamp, b.stamp);
      } else if b.stamp < a.stamp {
        LaterApart(b.stamp, a.stamp);
      }
    }

    /** `store_to_map`: the tokens of one batch reach their slots, and no other live slot
        changes. */
    method StoreToMap(fi: FutureIndices, tokens: seq<int>, ghost stamp: nat)
      requires Valid() && |tokens| == fi.count && stamp in sizes && sizes[stamp] == fi.count
      requires fi.first == Wrap(stamp) + 1 && Live(Slot(stamp, 0))
      modifies this`stored, this`log, tokenIdsBuf
      ensures Valid() && log == old(log) + [Store(stamp, fi.first, tokens)]
      ensures forall j: nat | j < |tokens| :: Slot(stamp, j) in stored && stored[Slot(stamp, j)] == tokens[j]
      ensures forall s | s in old(stored) && s.stamp != stamp :: s in stored && stored[s] == old(stored)[s]
    {
      hide Wrap, LogOk, BufferHolds, Batches, Index, WithTokens;
      ghost var w := Store(stamp, fi.first, tokens);
      BatchInBuffer(stamp);
      for j := 0 to |tokens|
        invariant stored == old(stored) && log == old(log)
        invariant forall i | 0 <= i < tokenIdsBuf.Length ::
            tokenIdsBuf[i] == if fi.first <= i < fi.first + j then tokens[i - fi.first] else old(tokenIdsBuf[i])
      {
        tokenIdsBuf[fi.first + j] := tokens[j];
      }
      StoreKeepsLog(w);
      StoreKeepsBuffer(old(tokenIdsBuf[..]), tokenIdsBuf[..], log, w);
      stored, log := WithTokens(stored, stamp, tokens), log + [w];
    }

    lemma BatchInBuffer(stamp: nat)
      requires Valid() && stamp in sizes
      ensures Wrap(stamp) + 1 + sizes[stamp] <= tokenIdsBuf.Length
    {
    }

    lemma StoreKeepsLog(w: Store)
      requires futureLimit > 0 && Batches(sizes, total) && LogOk(stored, log) && IsStore(w) && Live(Slot(w.stamp, 0))
      ensures LogOk(WithTokens(stored, w.stamp, w.tokens), log + [w])
    {
      hide Wrap, Batches, WithTokens;
      var stored', log' := WithTokens(stored, w.stamp, w.tokens), log + [w];
      assert log'[..|log|] == log;
      forall s | s in stored'
        ensures Given(s) && StoredAt(stored', log', s)
      {
        if s.stamp != w.stamp {
          assert StoredAt(stored, log, s) && stored'[s] == stored[s];
        } else {
          assert s.offset < |w.tokens|;
        }
      }
      forall k | 0 <= k < |log| && Live(Slot(log[k].stamp, 0)) && log[k].stamp != w.stamp
        ensures Apart(log[k], w)
      {
        assert IsStore(log[k]);
        if log[k].stamp < w.stamp {
          LaterApart(log[k].stamp, w.stamp);
        } else {
          LaterApart(w.stamp, log[k].stamp);
        }
      }
    }

    function Clamped(i: int): (r: int)
    {
      if i < 0 then 0 else if i > tokenIdsBuf.Length - 1 then tokenIdsBuf.Length - 1 else i
    }

    /** `resolve_future_input_ids`: in place; with `allPlaceholder` every entry is looked up, else
        the negative ones. */
    method ResolveFutureInputIds(inputIds: array<int>, allPlaceholder: bool)
      requires Valid() && inputIds != tokenIdsBuf
      modifies inputIds
      ensures forall i | 0 <= i < inputIds.Length ::
        inputIds[i] == if allPlaceholder || old(inputIds[i]) < 0 then tokenIdsBuf[Clamped(-old(inputIds[i]))]
            else old(inputIds[i])
    {
      for i := 0 to inputIds.Length
        invariant forall k | 0 <= k < i ::
          inputIds[k] == if allPlaceholder || old(inputIds[k]) < 0 then tokenIdsBuf[Clamped(-old(inputIds[k]))]
              else old(inputIds[k])
        invariant forall k | i <= k < inputIds.Length :: inputIds[k] == old(inputIds[k])
      {
        if allPlaceholder || inputIds[i] < 0 {
          inputIds[i] := tokenIdsBuf[Clamped(-inputIds[i])];
        }
      }
    }

    /** A stored token resolves to itself, whatever the batches stored after its own wrote, exactly if
        none of them was given its index.  Either way the placeholder resolves to the token stored
        last at the index. */
    lemma ResolvesExactly(s: Slot)
      requires Valid() && s in stored
      ensures LastStore(log, s.stamp).Some? && Index(s) < tokenIdsBuf.Length
      ensures Written(log, Index(s)) == Some(tokenIdsBuf[Clamped(Index(s))])
      ensures var k := LastStore(log, s.stamp).value;
              && Covers(log[k], Index(s)) && log[k].tokens[Index(s) - log[k].first] == stored[s]
              && (OutlastsAny(log, k, Index(s)) <==> UntouchedSince(k, Index(s)))
              && (UntouchedSince(k, Index(s)) ==> tokenIdsBuf[Clamped(Index(s))] == stored[s])
    {
      hide Wrap, OutlastsAny, Batches, Written, LastStore, BufferHolds, UntouchedSince;
      IndexInBuffer(s);
      assert StoredAt(stored, log, s);
      var k := LastStore(log, s.stamp).value;
      assert IsStore(log[k]);
      OutlastsExactly(log, k, Index(s));
      CoveredIsWritten(log, k, Index(s));
      HeldAt(tokenIdsBuf[..], log, Index(s));
      CoversIsGiven(k, Index(s));
      if UntouchedSince(k, Index(s)) {
        LastIsWritten(log, k, Index(s));
      }
    }

    lemma CoversIsGiven(k: nat, i: nat)
      requires futureLimit > 0 && LogOk(stored, log) && k < |log|
      ensures UntouchedSince(k, i) <==> forall l | k < l < |log| :: !Covers(log[l], i)
    {
      hide Wrap;
      assert forall l | k < l < |log| :: IsStore(log[l]);
    }

    /** No batch stored after position `k` was given index `i`. */
    ghost predicate UntouchedSince(k: nat, i: nat)
      requires futureLimit > 0
      reads this`sizes, this`log
    {
      forall l | k < l < |log| && log[l].stamp in sizes ::
        !(Wrap(log[l].stamp) + 1 <= i < Wrap(log[l].stamp) + 1 + sizes[log[l].stamp])
    }

    /** A stored token survives wrap-around: while its slot is live, its placeholder resolves to
        the token. */
    lemma PlaceholderResolves(s: Slot)
      requires Valid() && s in stored && Live(s)
      ensures -(Index(s) as int) < 0 && 0 <= Clamped(Index(s)) < tokenIdsBuf.Length
      ensures tokenIdsBuf[Clamped(Index(s))] == stored[s]
    {
      hide Wrap;
      ResolvesExactly(s);
      var k := LastStore(log, s.stamp).value;
      forall l | k < l < |log| && log[l].stamp in sizes
        ensures !(Wrap(log[l].stamp) + 1 <= Index(s) < Wrap(log[l].stamp) + 1 + sizes[log[l].stamp])
      {
        assert IsStore(log[l]) && Live(Slot(log[k].stamp, 0)) && Apart(log[k], log[l]);
      }
    }
  }

  // ---- Past the limit ------------------------------------------------------------------------

  /** A batch is given its slots, and its tokens are stored. */
  method StoreNext(m: FutureMap, tokens: seq<int>)
    requires m.Valid() && 0 < |tokens| <= m.maxRunning
    modifies m`futureCt, m`total, m`sizes, m`stored, m`log, m.tokenIdsBuf
    ensures m.Valid() && m.total == old(m.total) + |tokens| && m.sizes == old(m.sizes)[old(m.total) := |tokens|]
    ensures m.log == old(m.log) + [Store(old(m.total), m.Wrap(old(m.total)) + 1, tokens)]
    ensures forall j: nat | j < |tokens| ::
        Slot(old(m.total), j) in m.stored && m.stored[Slot(old(m.total), j)] == tokens[j]
    ensures forall s | s in old(m.stored) && s.stamp != old(m.total) :: s in m.stored && m.stored[s] == old(m.stored)[s]
  {
    hide FutureMap.Wrap, FutureMap.LogOk, FutureMap.Batches, BufferHolds;
    var fi := m.AllocFutureIndices(|tokens|);
    assert fi.first + 0 == m.Index(Slot(old(m.total), 0));
    m.StoreToMap(fi, tokens, old(m.total));
  }

  /** Room for one request: after four batches the first one's placeholder resolves to the token of
      the fourth. */
  method LapOverwrites() returns (m: FutureMap)
    ensures m.Valid() && Slot(0, 0) in m.stored && m.stored[Slot(0, 0)] == 10
    ensures m.tokenIdsBuf[m.Clamped(m.Index(Slot(0, 0)))] == 20
  {
    hide FutureMap.Valid, LastStore, OutlastsAny, FutureMap.UntouchedSince, FutureMap.Wrap;
    m := new FutureMap(1, 0);
    StoreNext(m, [10]);
    StoreNext(m, [11]);
    StoreNext(m, [12]);
    StoreNext(m, [20]);
    m.ResolvesExactly(Slot(0, 0));
    m.WrapIs(0, 0);
    m.WrapIs(3, 0);
  }

  /** Room for two: a fourth batch that ends past the first one's slot still spares its index, so the
      placeholder resolves although more than the limit was handed out. */
  method LapSpares() returns (m: FutureMap)
    ensures m.Valid() && Slot(0, 0) in m.stored && m.stored[Slot(0, 0)] == 10
    ensures !m.Live(Slot(0, 0)) && m.tokenIdsBuf[m.Clamped(m.Index(Slot(0, 0)))] == 10
  {
    hide FutureMap.Valid, LastStore, OutlastsAny, FutureMap.Wrap, Written;
    m := new FutureMap(2, 0);
    StoreNext(m, [10]);
    StoreNext(m, [11, 12]);
    StoreNext(m, [13, 14]);
    StoreNext(m, [15, 16]);
    m.ResolvesExactly(Slot(0, 0));
    LastStoreIs(m.log, 0);
    m.WrapIs(0, 0);
    m.WrapIs(1, 1);
    m.WrapIs(3, 3);
    m.WrapIs(5, 5);
  }
}
