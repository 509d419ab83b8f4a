/** The KV manager and the attention backends together: whatever view of a running request is taken
    after a step, it leads to the slots the request holds. */
module ServedViews {
  import opened Pages
  import opened PagedMemory
  import opened RequestRows
  import opened PageLedger
  import opened RequestTable
  import opened KVCacheManagement
  import opened AttentionViews

  /** What the backends are given for a request: its row of the request table and its length. */
  ghost function SeenOf(m: KVCacheManager, r: Req): Seen
    reads m`loans, m.pool, r`reqPoolIdx
  {
    if r in m.loans && 0 <= r.reqPoolIdx < |m.pool.reqToToken|
    then Seen(m.pool.reqToToken[r.reqPoolIdx], |m.loans[r].row|)
    else Seen([], 0)
  }

  ghost function SeenBy(m: KVCacheManager, reqs: seq<Req>): (seen: seq<Seen>)
    reads m`loans, m.pool, reqs
    ensures |seen| == |reqs| && forall i | 0 <= i < |reqs| :: seen[i] == SeenOf(m, reqs[i])
  {
    if reqs == [] then [] else SeenBy(m, reqs[..|reqs| - 1]) + [SeenOf(m, reqs[|reqs| - 1])]
  }

  /** What is seen of a request is its row. */
  ghost predicate SeesRow(s: Seen, row: seq<int>, ps: nat) {
    ps > 0 && s.len == |row| <= |s.kvLocs| && s.kvLocs[..s.len] == row && LaidOut(row, ps)
  }

  lemma SeenRow(m: KVCacheManager, r: Req)
    requires m.Valid() && r in m.running
    ensures r in m.loans && SeesRow(SeenOf(m, r), m.loans[r].row, m.pageSize)
  {
    hide KVCacheManager.Valid, LaidOut;
    m.RunningRow(r);
  }

  /** Row entry, block table and CSR form all give `slot` at position `p` of request `i`. */
  ghost predicate AllShow(seen: seq<Seen>, i: nat, p: nat, slot: int, ps: nat) {
    && ps > 0 && InTable(seen) && i < |seen| && p < seen[i].len && seen[i].kvLocs[p] == slot
    && PageIndex(p, ps) < |BlockTable(seen[i].kvLocs, ps)|
    && slot == BlockTable(seen[i].kvLocs, ps)[PageIndex(p, ps)] * ps + p % ps
    && IndPtr(seen, i, ps) + PageIndex(p, ps) < |KvIndices(seen, |seen|, ps)|
    && slot == KvIndices(seen, |seen|, ps)[IndPtr(seen, i, ps) + PageIndex(p, ps)] * ps + p % ps
  }

  lemma RowsShow(seen: seq<Seen>, rows: seq<seq<int>>, i: nat, p: nat, ps: nat)
    requires |rows| == |seen| && (forall k: nat | k < |seen| :: SeesRow(seen[k], rows[k], ps))
    requires i < |seen| && p < |rows[i]|
    ensures AllShow(seen, i, p, rows[i][p], ps)
  {
    hide LaidOut, BlockTable, KvIndices, IndPtr;
    assert SeesRow(seen[i], rows[i], ps);
    assert seen[i].kvLocs[..seen[i].len][p] == seen[i].kvLocs[p];
    BlockTableAgrees(seen[i].kvLocs, seen[i].len, p, ps);
    CsrAgrees(seen, i, p, ps);
  }

  ghost function RowsOf(m: KVCacheManager, reqs: seq<Req>): (rows: seq<seq<int>>)
    reads m`loans
    ensures |rows| == |reqs| && forall i | 0 <= i < |reqs| && reqs[i] in m.loans :: rows[i] == m.loans[reqs[i]].row
  {
    if reqs == [] then []
    else
      var r := reqs[|reqs| - 1];
      RowsOf(m, reqs[..|reqs| - 1]) + [if r in m.loans then m.loans[r].row else []]
  }

  /** In every valid state all views of every running request agree at every position: they show the
      slot the request holds there. */
  lemma ViewsAgree(m: KVCacheManager, reqs: seq<Req>)
    requires m.Valid() && forall r | r in reqs :: r in m.running
    ensures forall i: nat, p: nat | i < |reqs| && reqs[i] in m.loans && p < |m.loans[reqs[i]].row| ::
              AllShow(SeenBy(m, reqs), i, p, m.loans[reqs[i]].row[p], m.pageSize)
  {
    hide KVCacheManager.Valid, SeesRow, AllShow, SeenOf, SeenBy, RowsOf;
    var seen, rows := SeenBy(m, reqs), RowsOf(m, reqs);
    forall k: nat | k < |reqs|
      ensures reqs[k] in m.loans && SeesRow(seen[k], rows[k], m.pageSize)
    {
      SeenRow(m, reqs[k]);
    }
    forall i: nat, p: nat | i < |reqs| && p < |rows[i]|
      ensures AllShow(seen, i, p, rows[i][p], m.pageSize)
    {
      RowsShow(seen, rows, i, p, m.pageSize);
    }
  }

  /** The flattened token `t` of the batch is written where its request's row has its position. */
  ghost predicate TokenShows(s: Seen, batch: seq<Extend>, i: nat, t: nat, out: seq<int>)
    requires Growing(batch) && i < |batch|
  {
    && t < |out| && t < |PositionsExtend(batch)|
    && batch[i].pre <= PositionsExtend(batch)[t] < s.len <= |s.kvLocs| && s.kvLocs[PositionsExtend(batch)[t]] == out[t]
  }

  lemma TokenInRow(s: Seen, prefix: seq<int>, batch: seq<Extend>, i: nat, t: nat, out: seq<int>, ps: nat)
    requires Growing(batch) && i < |batch| && |out| == TokensBefore(batch, |batch|) && |prefix| == batch[i].pre
    requires SeesRow(s, prefix + Segment(batch, i, out), ps) && TokensBefore(batch, i) <= t < TokensBefore(batch, i + 1)
    ensures TokenShows(s, batch, i, t, out)
  {
    hide LaidOut, PositionsExtend;
    BeforeMonotone(batch, i + 1, |batch|, 1);
    PositionsAgree(batch, i, t, prefix, out);
    var pos := PositionsExtend(batch)[t];
    assert s.kvLocs[..s.len][pos] == s.kvLocs[pos];
  }

  ghost predicate TokensShow(s: Seen, batch: seq<Extend>, i: nat, out: seq<int>)
    requires Growing(batch) && i < |batch|
  {
    forall t: nat | TokensBefore(batch, i) <= t < TokensBefore(batch, i + 1) :: TokenShows(s, batch, i, t, out)
  }

  /** After `prepare_for_extend`, every flattened token's slot is the entry of its request's row of the
      request table at the token's computed position, besides all views agreeing on that row. */
  lemma ExtendViewsAgree(m: KVCacheManager, before: map<Req, Loan>, reqs: seq<Req>, batch: seq<Extend>, out: seq<int>)
    requires |batch| == |reqs| && Growing(batch) && m.ExtendedBy(before, reqs, batch, out)
    requires forall i: nat | i < |reqs| :: reqs[i] in before && |before[reqs[i]].row| == batch[i].pre
    requires (forall r | r in reqs :: r in m.running) && m.Valid()
    ensures forall i: nat | i < |reqs| :: TokensShow(SeenOf(m, reqs[i]), batch, i, out)
  {
    hide KVCacheManager.Valid, SeesRow, SeenOf, TokenShows, TokensBefore, Segment;
    forall i: nat | i < |reqs|
      ensures TokensShow(SeenOf(m, reqs[i]), batch, i, out)
    {
      SeenRow(m, reqs[i]);
      forall t: nat | TokensBefore(batch, i) <= t < TokensBefore(batch, i + 1)
        ensures TokenShows(SeenOf(m, reqs[i]), batch, i, t, out)
      {
        TokenInRow(SeenOf(m, reqs[i]), before[reqs[i]].row, batch, i, t, out, m.pageSize);
      }
    }
  }
}
