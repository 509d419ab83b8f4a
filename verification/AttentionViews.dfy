/** The three views the attention backends take of a request's slots: the FlashAttention block
    table, the FlashInfer CSR page lists, and the flattened positions of an extend. */
module AttentionViews {
  import opened Pages
  import opened PagedMemory
  import opened RequestRows
  import opened PageLedger
  import opened RequestTable

  // ---------- Block table ----------

  /** `kv_locs[::page_size] // page_size`. */
  function BlockTable(kvLocs: seq<int>, ps: nat): (table: seq<int>)
    requires ps > 0
  {
    if kvLocs == [] then []
    else [kvLocs[0] / ps] + BlockTable(kvLocs[Min(ps, |kvLocs|)..], ps)
  }

  /** `p // page_size`, recursively. */
  function PageIndex(p: nat, ps: nat): (j: nat)
    requires ps > 0
    ensures j == p / ps
  {
    if p < ps then
      DivModUnique(p, ps, 0, p);
      0
    else
      StepBack(p, ps);
      PageIndex(p - ps, ps) + 1
  }

  lemma StepBack(p: nat, ps: nat)
    requires 0 < ps <= p
    ensures p / ps == (p - ps) / ps + 1
  {
    var q, r := (p - ps) / ps, (p - ps) % ps;
    assert p - ps == ps * q + r;
    assert (q + 1) * ps == q * ps + ps;
    DivModUnique(p, ps, q + 1, r);
  }

  lemma {:induction false} BlockTableAt(kvLocs: seq<int>, p: nat, ps: nat)
    requires ps > 0 && p < |kvLocs|
    ensures PageIndex(p, ps) < |BlockTable(kvLocs, ps)|
    ensures BlockTable(kvLocs, ps)[PageIndex(p, ps)] == kvLocs[AlignLen(p, ps)] / ps
    decreases p
  {
    if p >= ps {
      BlockTableAt(kvLocs[ps..], p - ps, ps);
    }
  }

  lemma {:induction false} BlockTableLength(kvLocs: seq<int>, ps: nat)
    requires ps > 0
    ensures |BlockTable(kvLocs, ps)| == CeilDiv(|kvLocs|, ps)
  {
    if kvLocs == [] {
      DivModUnique(ps - 1, ps, 0, ps - 1);
    } else {
      var rest := kvLocs[Min(ps, |kvLocs|)..];
      BlockTableLength(rest, ps);
      if |kvLocs| <= ps {
        DivModUnique(ps - 1, ps, 0, ps - 1);
        DivModUnique(|kvLocs| + ps - 1, ps, 1, |kvLocs| - 1);
      } else {
        OnePageMore(|rest|, ps);
      }
    }
  }

  lemma OnePageMore(n: nat, ps: nat)
    requires ps > 0
    ensures CeilDiv(n + ps, ps) == CeilDiv(n, ps) + 1
  {
    var q, r := (n + ps - 1) / ps, (n + ps - 1) % ps;
    assert n + ps - 1 == ps * q + r;
    assert (q + 1) * ps == q * ps + ps;
    DivModUnique(n + ps + ps - 1, ps, q + 1, r);
  }

  /** Block table and row agree on every token of the request.  The table row may be longer:
      what follows the request's own tokens does not matter. */
  lemma BlockTableAgrees(kvLocs: seq<int>, n: nat, p: nat, ps: nat)
    requires ps > 0 && p < n <= |kvLocs| && LaidOut(kvLocs[..n], ps)
    ensures PageIndex(p, ps) < |BlockTable(kvLocs, ps)|
    ensures kvLocs[p] == BlockTable(kvLocs, ps)[PageIndex(p, ps)] * ps + p % ps
  {
    hide BlockTable, PageIndex;
    BlockTableAt(kvLocs, p, ps);
    assert kvLocs[..n][p] == kvLocs[p] && kvLocs[..n][AlignLen(p, ps)] == kvLocs[AlignLen(p, ps)];
    SlotParts(kvLocs[p], ps);
  }

  lemma SlotParts(slot: int, ps: nat)
    requires ps > 0
    ensures slot == slot / ps * ps + slot % ps
  {
  }

  // ---------- CSR page lists ----------

  /** One request as the backend sees it: its row of the page table and its length. */
  datatype Seen = Seen(kvLocs: seq<int>, len: nat)

  predicate InTable(seen: seq<Seen>) {
    forall i | 0 <= i < |seen| :: seen[i].len <= |seen[i].kvLocs|
  }

  /** `paged_kv_indptr[k]`: the cumulative sum of the page counts. */
  function IndPtr(seen: seq<Seen>, k: nat, ps: nat): nat
    requires ps > 0 && k <= |seen|
  {
    if k == 0 then 0 else IndPtr(seen, k - 1, ps) + CeilDiv(seen[k - 1].len, ps)
  }

  /** The pages of one request: the columns of its table row that the mask keeps. */
  function PagesOfRow(s: Seen, ps: nat): (pages: seq<int>)
    requires ps > 0 && s.len <= |s.kvLocs|
    ensures |pages| == CeilDiv(s.len, ps)
  {
    BlockTableLength(s.kvLocs, ps);
    CeilMonotone(s.len, |s.kvLocs|, ps);
    BlockTable(s.kvLocs, ps)[..CeilDiv(s.len, ps)]
  }

  lemma CeilMonotone(a: nat, b: nat, ps: nat)
    requires ps > 0 && a <= b
    ensures CeilDiv(a, ps) <= CeilDiv(b, ps)
  {
    FloorMonotone(a + ps - 1, b + ps - 1, ps);
  }

  /** `paged_kv_indices`: the kept columns of all rows, one row after the other. */
  function KvIndices(seen: seq<Seen>, k: nat, ps: nat): (pages: seq<int>)
    requires ps > 0 && k <= |seen| && InTable(seen)
    ensures |pages| == IndPtr(seen, k, ps)
  {
    if k == 0 then [] else KvIndices(seen, k - 1, ps) + PagesOfRow(seen[k - 1], ps)
  }

  /** `(seq_len - 1) % page_size + 1`, with a remainder that is never negative. */
  function LastPageLen(len: nat, ps: nat): int
    requires ps > 0
  {
    (len - 1) % ps + 1
  }

  lemma {:induction false} KvIndicesAt(seen: seq<Seen>, i: nat, k: nat, j: nat, ps: nat)
    requires ps > 0 && i < k <= |seen| && InTable(seen) && j < CeilDiv(seen[i].len, ps)
    ensures IndPtr(seen, i, ps) + j < IndPtr(seen, i + 1, ps) <= IndPtr(seen, k, ps)
    ensures KvIndices(seen, k, ps)[IndPtr(seen, i, ps) + j] == PagesOfRow(seen[i], ps)[j]
    decreases k
  {
    if i < k - 1 {
      KvIndicesAt(seen, i, k - 1, j, ps);
    }
  }

  /** The length a paged kernel reads off the CSR form is the request's length. */
  lemma CsrLength(len: nat, ps: nat)
    requires ps > 0
    ensures (CeilDiv(len, ps) - 1) * ps + LastPageLen(len, ps) == len
  {
    if len == 0 {
      DivModUnique(ps - 1, ps, 0, ps - 1);
      assert (0 - 1) % ps == ps - 1 by { MinusOne(ps); }
    } else {
      var q, r := (len - 1) / ps, (len - 1) % ps;
      assert len - 1 == ps * q + r;
      assert (q + 1) * ps == q * ps + ps;
      DivModUnique(len + ps - 1, ps, q + 1, r);
    }
  }

  lemma MinusOne(ps: nat)
    requires ps > 0
    ensures (0 - 1) % ps == ps - 1
  {
    var q, r := (0 - 1) / ps, (0 - 1) % ps;
    assert 0 - 1 == ps * q + r;
    assert (q + 1) * ps == q * ps + ps;
    MulAtLeast(q + 1, ps);
  }

  /** Decoding the CSR form gives back every slot of every request. */
  lemma CsrAgrees(seen: seq<Seen>, i: nat, p: nat, ps: nat)
    requires ps > 0 && InTable(seen) && i < |seen| && p < seen[i].len && LaidOut(seen[i].kvLocs[..seen[i].len], ps)
    ensures IndPtr(seen, i, ps) + PageIndex(p, ps) < IndPtr(seen, i + 1, ps) <= |KvIndices(seen, |seen|, ps)|
    ensures seen[i].kvLocs[p] == KvIndices(seen, |seen|, ps)[IndPtr(seen, i, ps) + PageIndex(p, ps)] * ps + p % ps
  {
    hide BlockTable, LaidOut;
    var s := seen[i];
    CeilDivBounds(s.len, ps);
    FloorBelowCeil(p, s.len, CeilDiv(s.len, ps), ps);
    KvIndicesAt(seen, i, |seen|, PageIndex(p, ps), ps);
    BlockTableAgrees(s.kvLocs, s.len, p, ps);
  }

  // ---------- Positions of an extend ----------

  function RepeatInterleave(vals: seq<int>, lens: seq<nat>): (r: seq<int>)
    requires |vals| == |lens|
  {
    if vals == [] then []
    else RepeatInterleave(vals[..|vals| - 1], lens[..|lens| - 1]) + seq(lens[|lens| - 1], _ => vals[|vals| - 1])
  }

  function PrefixLens(batch: seq<Extend>): (r: seq<int>)
    ensures |r| == |batch| && forall i | 0 <= i < |r| :: r[i] == batch[i].pre
  {
    seq(|batch|, i requires 0 <= i < |batch| => batch[i].pre)
  }

  function ExtendLens(batch: seq<Extend>): (r: seq<nat>)
    requires Growing(batch)
    ensures |r| == |batch| && forall i | 0 <= i < |r| :: r[i] == batch[i].len - batch[i].pre
  {
    seq(|batch|, i requires 0 <= i < |batch| => batch[i].len - batch[i].pre)
  }

  /** `cumsum(extend_lens) - extend_lens`. */
  function StartOffsets(batch: seq<Extend>): (r: seq<int>)
    requires Growing(batch)
    ensures |r| == |batch| && forall i: nat | i < |r| :: r[i] == TokensBefore(batch, i)
  {
    seq(|batch|, i requires 0 <= i < |batch| => TokensBefore(batch, i + 1) - (batch[i].len - batch[i].pre))
  }

  lemma {:induction false} RepeatAt(batch: seq<Extend>, vals: seq<int>, k: nat, i: nat, t: nat)
    requires Growing(batch) && |vals| == |batch| && i < k <= |batch|
    requires TokensBefore(batch, i) <= t < TokensBefore(batch, i + 1)
    ensures TokensBefore(batch, i + 1) <= TokensBefore(batch, k)
    ensures |RepeatInterleave(vals[..k], ExtendLens(batch)[..k])| == TokensBefore(batch, k)
    ensures RepeatInterleave(vals[..k], ExtendLens(batch)[..k])[t] == vals[i]
    decreases k
  {
    RepeatLength(batch, vals, k);
    RepeatLength(batch, vals, k - 1);
    assert vals[..k][..k - 1] == vals[..k - 1] && ExtendLens(batch)[..k][..k - 1] == ExtendLens(batch)[..k - 1];
    if i < k - 1 {
      RepeatAt(batch, vals, k - 1, i, t);
    }
  }

  lemma {:induction false} RepeatLength(batch: seq<Extend>, vals: seq<int>, k: nat)
    requires Growing(batch) && |vals| == |batch| && k <= |batch|
    ensures |RepeatInterleave(vals[..k], ExtendLens(batch)[..k])| == TokensBefore(batch, k)
    decreases k
  {
    if k > 0 {
      RepeatLength(batch, vals, k - 1);
      assert vals[..k][..k - 1] == vals[..k - 1] && ExtendLens(batch)[..k][..k - 1] == ExtendLens(batch)[..k - 1];
    }
  }

  /** `compute_positions_extend`. */
  function PositionsExtend(batch: seq<Extend>): (positions: seq<int>)
    requires Growing(batch)
    ensures |positions| == TokensBefore(batch, |batch|)
  {
    var lens, n := ExtendLens(batch), TokensBefore(batch, |batch|);
    RepeatLength(batch, PrefixLens(batch), |batch|);
    RepeatLength(batch, StartOffsets(batch), |batch|);
    assert lens[..|batch|] == lens && PrefixLens(batch)[..|batch|] == PrefixLens(batch)
        && StartOffsets(batch)[..|batch|] == StartOffsets(batch);
    var prefixRep, startRep := RepeatInterleave(PrefixLens(batch), lens), RepeatInterleave(StartOffsets(batch), lens);
    seq(n, t requires 0 <= t < n => prefixRep[t] + (t - startRep[t]))
  }

  /** Token `t` of the flattened batch belongs to some request. */
  lemma {:induction false} TokenHasRequest(batch: seq<Extend>, k: nat, t: nat) returns (i: nat)
    requires Growing(batch) && k <= |batch| && t < TokensBefore(batch, k)
    ensures i < k && TokensBefore(batch, i) <= t < TokensBefore(batch, i + 1)
    decreases k
  {
    if t < TokensBefore(batch, k - 1) {
      i := TokenHasRequest(batch, k - 1, t);
    } else {
      i := k - 1;
    }
  }

  /** Every flattened token's slot is the entry of its request's row at its position. */
  lemma PositionsAgree(batch: seq<Extend>, i: nat, t: nat, prefix: seq<int>, out: seq<int>)
    requires Growing(batch) && i < |batch| && |out| == TokensBefore(batch, |batch|) && |prefix| == batch[i].pre
    requires TokensBefore(batch, i) <= t < TokensBefore(batch, i + 1)
    ensures t < |PositionsExtend(batch)| && batch[i].pre <= PositionsExtend(batch)[t] < batch[i].len
    ensures (prefix + Segment(batch, i, out))[PositionsExtend(batch)[t]] == out[t]
  {
    BeforeMonotone(batch, i + 1, |batch|, 1);
    RepeatAt(batch, PrefixLens(batch), |batch|, i, t);
    RepeatAt(batch, StartOffsets(batch), |batch|, i, t);
    var lens := ExtendLens(batch);
    assert lens[..|batch|] == lens && PrefixLens(batch)[..|batch|] == PrefixLens(batch)
        && StartOffsets(batch)[..|batch|] == StartOffsets(batch);
    assert PositionsExtend(batch)[t] == batch[i].pre + (t - TokensBefore(batch, i));
  }
}
