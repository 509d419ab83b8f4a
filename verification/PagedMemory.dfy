/** The paged KV allocator of miniinfer/kvcache/memory_pool.py.

    The parallel kernels are proved equal to a reference that hands out slots one token at
    a time, in request order: continue the page of the previous token, or open the next
    free page when the position is a page boundary. */
module PagedMemory {
  import opened Wrappers
  import opened Pages
  import opened Orders

  // ---------- Reference: one token at a time ----------

  /** How many pages a request opens while growing from `p` to `end` tokens. */
  function PagesOpened(p: nat, end: nat, ps: nat): nat
    requires ps > 0 && p <= end
    decreases end - p
  {
    if p == end then 0
    else (if p % ps == 0 then 1 else 0) + PagesOpened(p + 1, end, ps)
  }

  /** Slots handed out to one request for positions `p..end`. */
  function ExtendOne(p: nat, end: nat, last: int, free: seq<int>, ps: nat): (slots: seq<int>)
    requires ps > 0 && p <= end && PagesOpened(p, end, ps) <= |free|
    ensures |slots| == end - p
    decreases end - p
  {
    if p == end then []
    else if p % ps == 0 then [free[0] * ps] + ExtendOne(p + 1, end, free[0] * ps, free[1..], ps)
    else [last + 1] + ExtendOne(p + 1, end, last + 1, free, ps)
  }

  // ---------- A batch ----------

  /** One entry per request: cached length, new length, slot of the last cached token. */
  datatype Extend = Extend(pre: nat, len: nat, last: int)

  predicate Growing(batch: seq<Extend>) {
    forall i | 0 <= i < |batch| :: batch[i].pre <= batch[i].len
  }

  /** `tl.sum(extend_lens)` over the first `k` lanes. */
  function TokensBefore(batch: seq<Extend>, k: nat): nat
    requires k <= |batch| && Growing(batch)
  {
    if k == 0 then 0 else TokensBefore(batch, k - 1) + batch[k - 1].len - batch[k - 1].pre
  }

  function OpenedBefore(batch: seq<Extend>, k: nat, ps: nat): nat
    requires ps > 0 && k <= |batch| && Growing(batch)
  {
    if k == 0 then 0
    else OpenedBefore(batch, k - 1, ps) + PagesOpened(batch[k - 1].pre, batch[k - 1].len, ps)
  }

  lemma {:induction false} BeforeMonotone(batch: seq<Extend>, i: nat, k: nat, ps: nat)
    requires ps > 0 && i <= k <= |batch| && Growing(batch)
    ensures TokensBefore(batch, i) <= TokensBefore(batch, k)
    ensures OpenedBefore(batch, i, ps) <= OpenedBefore(batch, k, ps)
    decreases k
  {
    if i < k {
      BeforeMonotone(batch, i, k - 1, ps);
    }
  }

  /** The slots of request `i` when the requests before it were served first. */
  function SlotsOf(batch: seq<Extend>, i: nat, free: seq<int>, ps: nat): (slots: seq<int>)
    requires ps > 0 && i < |batch| && Growing(batch)
    requires OpenedBefore(batch, i + 1, ps) <= |free|
    ensures |slots| == batch[i].len - batch[i].pre
  {
    ExtendOne(batch[i].pre, batch[i].len, batch[i].last, free[OpenedBefore(batch, i, ps)..], ps)
  }

  /** The flat output of serving the first `k` requests one after the other. */
  function ExtendBatch(batch: seq<Extend>, k: nat, free: seq<int>, ps: nat): (slots: seq<int>)
    requires ps > 0 && k <= |batch| && Growing(batch)
    requires OpenedBefore(batch, k, ps) <= |free|
    ensures |slots| == TokensBefore(batch, k)
  {
    if k == 0 then [] else ExtendBatch(batch, k - 1, free, ps) + SlotsOf(batch, k - 1, free, ps)
  }

  /** Request `i` owns the segment of the output that starts at its prefix sum. */
  lemma {:induction false} SegmentOfBatch(batch: seq<Extend>, i: nat, k: nat, free: seq<int>, ps: nat)
    requires ps > 0 && i < k <= |batch| && Growing(batch)
    requires OpenedBefore(batch, k, ps) <= |free|
    ensures OpenedBefore(batch, i + 1, ps) <= |free|
    ensures TokensBefore(batch, i + 1) <= TokensBefore(batch, k)
    ensures ExtendBatch(batch, k, free, ps)[TokensBefore(batch, i)..TokensBefore(batch, i + 1)]
         == SlotsOf(batch, i, free, ps)
    decreases k
  {
    BeforeMonotone(batch, i + 1, k, ps);
    var before, mine := ExtendBatch(batch, k - 1, free, ps), SlotsOf(batch, k - 1, free, ps);
    if i + 1 == k {
      SliceOfConcat(before, mine, 0, 0);
    } else {
      BeforeMonotone(batch, i + 1, k - 1, ps);
      SegmentOfBatch(batch, i, k - 1, free, ps);
      SliceOfConcat(before, mine, TokensBefore(batch, i), TokensBefore(batch, i + 1));
    }
  }

  lemma SliceOfConcat(a: seq<int>, b: seq<int>, i: nat, j: nat)
    requires i <= j <= |a|
    ensures (a + b)[i..j] == a[i..j]
    ensures (a + b)[|a|..|a| + |b|] == b
  {
  }

  /** Request `i`'s segment of `out` holds the slots of the reference. */
  ghost predicate SegmentDone(out: seq<int>, batch: seq<Extend>, i: nat, free: seq<int>, ps: nat)
    requires ps > 0 && i < |batch| && Growing(batch)
  {
    && OpenedBefore(batch, i + 1, ps) <= |free| && TokensBefore(batch, i + 1) <= |out|
    && out[TokensBefore(batch, i)..TokensBefore(batch, i + 1)] == SlotsOf(batch, i, free, ps)
  }

  /** Outputs that agree on every request's segment are equal. */
  lemma {:induction false} SegmentsDetermine(out: seq<int>, batch: seq<Extend>, k: nat, free: seq<int>, ps: nat)
    requires ps > 0 && k <= |batch| && Growing(batch)
    requires OpenedBefore(batch, k, ps) <= |free| && TokensBefore(batch, k) <= |out|
    requires forall i | 0 <= i < k :: SegmentDone(out, batch, i, free, ps)
    ensures out[..TokensBefore(batch, k)] == ExtendBatch(batch, k, free, ps)
    decreases k
  {
    if k > 0 {
      BeforeMonotone(batch, k - 1, k, ps);
      SegmentsDetermine(out, batch, k - 1, free, ps);
      assert SegmentDone(out, batch, k - 1, free, ps);
      var a, b := TokensBefore(batch, k - 1), TokensBefore(batch, k);
      assert out[..b] == out[..a] + out[a..b];
    }
  }

  // ---------- Closed forms used by the kernels ----------

  lemma CeilDivBounds(n: nat, ps: nat)
    requires ps > 0
    ensures n <= CeilDiv(n, ps) * ps < n + ps
    ensures n % ps == 0 ==> CeilDiv(n, ps) == n / ps && CeilDiv(n, ps) * ps == n
    ensures n % ps != 0 ==> CeilDiv(n, ps) == n / ps + 1
  {
    var q, r := n / ps, n % ps;
    assert n == ps * q + r;
    if r == 0 {
      assert n + ps - 1 == q * ps + (ps - 1);
      DivModUnique(n + ps - 1, ps, q, ps - 1);
    } else {
      assert n + ps - 1 == (q + 1) * ps + (r - 1);
      DivModUnique(n + ps - 1, ps, q + 1, r - 1);
    }
  }

  lemma NextCeil(p: nat, ps: nat)
    requires ps > 0
    ensures CeilDiv(p + 1, ps) == p / ps + 1
    ensures p % ps == 0 ==> CeilDiv(p, ps) == p / ps
    ensures p % ps != 0 ==> CeilDiv(p, ps) == p / ps + 1
  {
    CeilDivBounds(p, ps);
    assert p == ps * (p / ps) + p % ps;
    assert (p + 1) + ps - 1 == (p / ps + 1) * ps + p % ps;
    DivModUnique((p + 1) + ps - 1, ps, p / ps + 1, p % ps);
  }

  /** The kernel's page count `ceil(seq_len/ps) - ceil(pre_len/ps)` is the number of pages
      the request really opens. */
  lemma {:induction false} PagesOpenedIsCeilDifference(p: nat, end: nat, ps: nat)
    requires ps > 0 && p <= end
    ensures CeilDiv(end, ps) - CeilDiv(p, ps) == PagesOpened(p, end, ps)
    decreases end - p
  {
    if p < end {
      PagesOpenedIsCeilDifference(p + 1, end, ps);
      NextCeil(p, ps);
    }
  }

  /** Where position `q` of a request growing from `p` lands: in the old partial page, or
      in the mine page of its own page index. */
  ghost predicate SlotIs(p: nat, q: nat, slot: int, last: int, free: seq<int>, ps: nat)
    requires ps > 0 && p <= q
  {
    var c := CeilDiv(p, ps);
    if q < c * ps then slot == last + 1 + (q - p)
    else 0 <= q / ps - c < |free| && slot == free[q / ps - c] * ps + q % ps
  }

  lemma SlotStepAtBoundary(p: nat, q: nat, slot: int, last: int, free: seq<int>, ps: nat)
    requires ps > 0 && p <= q && p % ps == 0 && free != []
    requires if q == p then slot == free[0] * ps else SlotIs(p + 1, q, slot, free[0] * ps, free[1..], ps)
    ensures SlotIs(p, q, slot, last, free, ps)
  {
    NextCeil(p, ps);
    CeilDivBounds(p, ps);
    var c := CeilDiv(p, ps);
    assert (c + 1) * ps == c * ps + ps;
    if q < c * ps + ps {
      DivModUnique(q, ps, c, q - c * ps);
    } else {
      assert q / ps - c >= 1;
    }
  }

  lemma SlotStepInside(p: nat, q: nat, slot: int, last: int, free: seq<int>, ps: nat)
    requires ps > 0 && p <= q && p % ps != 0
    requires if q == p then slot == last + 1 else SlotIs(p + 1, q, slot, last + 1, free, ps)
    ensures SlotIs(p, q, slot, last, free, ps)
  {
    NextCeil(p, ps);
    CeilDivBounds(p, ps);
    if q == p {
      assert p != CeilDiv(p, ps) * ps by {
        if p == CeilDiv(p, ps) * ps {
          DivModUnique(p, ps, CeilDiv(p, ps), 0);
        }
      }
    }
  }

  lemma {:induction false} SlotClosedForm(p: nat, end: nat, q: nat, last: int, free: seq<int>, ps: nat)
    requires ps > 0 && p <= q < end && PagesOpened(p, end, ps) <= |free|
    ensures SlotIs(p, q, ExtendOne(p, end, last, free, ps)[q - p], last, free, ps)
    decreases end - p
  {
    var slot := ExtendOne(p, end, last, free, ps)[q - p];
    if p % ps == 0 {
      if q > p {
        SlotClosedForm(p + 1, end, q, free[0] * ps, free[1..], ps);
      }
      SlotStepAtBoundary(p, q, slot, last, free, ps);
    } else {
      if q > p {
        SlotClosedForm(p + 1, end, q, last + 1, free, ps);
      }
      SlotStepInside(p, q, slot, last, free, ps);
    }
  }

  lemma ShiftByPages(c: nat, o: nat, ps: nat)
    requires ps > 0
    ensures c * ps >= 0 && (c * ps + o) / ps == c + o / ps && (c * ps + o) % ps == o % ps
  {
    assert o == ps * (o / ps) + o % ps;
    assert c * ps + o == (c + o / ps) * ps + o % ps;
    DivModUnique(c * ps + o, ps, c + o / ps, o % ps);
  }

  /** Past the old partial page, a request that still has tokens to place ends no earlier
      than the next page boundary, and its last page is the last one it opened. */
  lemma PartBounds(pre: nat, len: nat, ps: nat)
    requires ps > 0 && CeilDiv(pre, ps) * ps < len && pre <= len
    ensures len / ps >= CeilDiv(pre, ps)
    ensures CeilDiv(pre, ps) * ps <= len / ps * ps <= len < len / ps * ps + ps
    ensures len / ps * ps < len ==> CeilDiv(len, ps) - CeilDiv(pre, ps) - 1 == len / ps - CeilDiv(pre, ps)
  {
    var c := CeilDiv(pre, ps);
    assert len == ps * (len / ps) + len % ps;
    if len / ps < c {
      assert len / ps * ps + ps == (len / ps + 1) * ps;
      MulMonotone(len / ps + 1, c, ps);
    }
    MulMonotone(c, len / ps, ps);
    CeilDivBounds(len, ps);
  }

  // ---------- The kernels ----------

  /** The blocks the three parts of the kernel store, lane by lane. */
  function OldPageLanes(n: nat, last: int): (s: seq<int>)
    ensures |s| == n
  {
    if n == 0 then [] else OldPageLanes(n - 1, last) + [last + 1 + (n - 1)]
  }

  function FullPageLanes(n: nat, free: seq<int>, firstPage: nat, ps: nat): (s: seq<int>)
    requires ps > 0 && firstPage + CeilDiv(n, ps) <= |free|
    ensures |s| == n
    decreases n
  {
    if n == 0 then []
    else
      LaneInRange(n - 1, ps);
      FullPageLanes(n - 1, free, firstPage, ps) + [free[firstPage + (n - 1) / ps] * ps + (n - 1) % ps]
  }

  function NewPageLanes(n: nat, page: int, ps: nat): (s: seq<int>)
    ensures |s| == n
  {
    if n == 0 then [] else NewPageLanes(n - 1, page, ps) + [page * ps + (n - 1)]
  }

  lemma LaneInRange(n: nat, ps: nat)
    requires ps > 0
    ensures n / ps < CeilDiv(n + 1, ps) && CeilDiv(n, ps) <= CeilDiv(n + 1, ps)
  {
    NextCeil(n, ps);
  }

  /** `tl.store` of a vector of lanes at `out + at`. */
  method Store(out: array<int>, at: nat, lanes: seq<int>)
    requires at + |lanes| <= out.Length
    modifies out
    ensures out[at..at + |lanes|] == lanes
    ensures forall j | 0 <= j < out.Length && !(at <= j < at + |lanes|) :: out[j] == old(out[j])
  {
    for o := 0 to |lanes|
      invariant out[at..at + o] == lanes[..o]
      invariant forall j | 0 <= j < out.Length && !(at <= j < at + o) :: out[j] == old(out[j])
    {
      out[at + o] := lanes[o];
      assert out[at..at + (o + 1)] == out[at..at + o] + [out[at + o]];
    }
  }

  predicate FitsIn(r: Extend, free: seq<int>, ps: nat)
    requires ps > 0
  {
    r.pre <= r.len && PagesOpened(r.pre, r.len, ps) <= |free|
  }

  /** The reference's output, cut at the kernel's three parts. */
  lemma {:induction false} OldPageBlock(r: Extend, n: nat, free: seq<int>, ps: nat)
    requires ps > 0 && FitsIn(r, free, ps) && r.pre + n <= r.len
    requires r.pre + n <= CeilDiv(r.pre, ps) * ps
    ensures ExtendOne(r.pre, r.len, r.last, free, ps)[..n] == OldPageLanes(n, r.last)
    decreases n
  {
    if n > 0 {
      OldPageBlock(r, n - 1, free, ps);
      SlotClosedForm(r.pre, r.len, r.pre + (n - 1), r.last, free, ps);
      var slots := ExtendOne(r.pre, r.len, r.last, free, ps);
      assert slots[..n] == slots[..n - 1] + [slots[n - 1]];
    }
  }

  lemma {:induction false} FullPageBlock(r: Extend, base: nat, n: nat, free: seq<int>, pageStart: nat, ps: nat)
    requires ps > 0 && pageStart <= |free| && FitsIn(r, free[pageStart..], ps)
    requires base == CeilDiv(r.pre, ps) * ps && r.pre <= base && base + n <= r.len
    ensures pageStart + CeilDiv(n, ps) <= |free|
    ensures ExtendOne(r.pre, r.len, r.last, free[pageStart..], ps)[base - r.pre..base - r.pre + n]
         == FullPageLanes(n, free, pageStart, ps)
    decreases n
  {
    if n == 0 {
      DivModUnique(ps - 1, ps, 0, ps - 1);
    } else {
      var mine := free[pageStart..];
      FullPageBlock(r, base, n - 1, free, pageStart, ps);
      FullPageLane(r, base, n - 1, free, pageStart, ps);
      NextCeil(n - 1, ps);
      var slots := ExtendOne(r.pre, r.len, r.last, mine, ps);
      var b := base - r.pre;
      assert slots[b..b + n] == slots[b..b + (n - 1)] + [slots[b + (n - 1)]];
    }
  }

  lemma FullPageLane(r: Extend, base: nat, o: nat, free: seq<int>, pageStart: nat, ps: nat)
    requires ps > 0 && pageStart <= |free| && FitsIn(r, free[pageStart..], ps)
    requires base == CeilDiv(r.pre, ps) * ps && r.pre <= base && base + o < r.len
    ensures 0 <= o / ps && pageStart + o / ps < |free|
    ensures ExtendOne(r.pre, r.len, r.last, free[pageStart..], ps)[base - r.pre + o]
         == free[pageStart + o / ps] * ps + o % ps
  {
    SlotClosedForm(r.pre, r.len, base + o, r.last, free[pageStart..], ps);
    ShiftByPages(CeilDiv(r.pre, ps), o, ps);
  }

  lemma NewPageLane(r: Extend, full: nat, o: nat, k: int, free: seq<int>, ps: nat)
    requires ps > 0 && FitsIn(r, free, ps) && full + o < r.len
    requires CeilDiv(r.pre, ps) * ps < r.len && full == r.len / ps * ps && r.pre <= full
    requires k == CeilDiv(r.len, ps) - CeilDiv(r.pre, ps)
    ensures 1 <= k <= |free|
    ensures ExtendOne(r.pre, r.len, r.last, free, ps)[full - r.pre + o] == free[k - 1] * ps + o
  {
    PartBounds(r.pre, r.len, ps);
    SlotClosedForm(r.pre, r.len, full + o, r.last, free, ps);
    DivModUnique(full + o, ps, r.len / ps, o);
  }

  lemma {:induction false} NewPageBlock(r: Extend, full: nat, n: nat, k: int, free: seq<int>, ps: nat)
    requires ps > 0 && FitsIn(r, free, ps) && full + n <= r.len && full < r.len
    requires CeilDiv(r.pre, ps) * ps < r.len && full == r.len / ps * ps && r.pre <= full
    requires k == CeilDiv(r.len, ps) - CeilDiv(r.pre, ps)
    ensures 1 <= k <= |free|
    ensures ExtendOne(r.pre, r.len, r.last, free, ps)[full - r.pre..full - r.pre + n]
        == NewPageLanes(n, free[k - 1], ps)
    decreases n
  {
    if n == 0 {
      NewPageLane(r, full, 0, k, free, ps);
    } else {
      NewPageBlock(r, full, n - 1, k, free, ps);
      NewPageLane(r, full, n - 1, k, free, ps);
      var slots := ExtendOne(r.pre, r.len, r.last, free, ps);
      var b := full - r.pre;
      assert slots[b..b + n] == slots[b..b + (n - 1)] + [slots[b + (n - 1)]];
    }
  }

  /** The vectors a program stores; a program that is done early returns early. */
  method PartLanes(r: Extend, free: seq<int>, pageStart: nat, ps: nat, maxExtend: nat)
    returns (old1: seq<int>, full2: seq<int>, new3: seq<int>)
    requires ps > 0 && r.len - r.pre <= maxExtend
    requires pageStart <= |free| && FitsIn(r, free[pageStart..], ps)
    ensures old1 + full2 + new3 == ExtendOne(r.pre, r.len, r.last, free[pageStart..], ps)
  {
    ghost var slots := ExtendOne(r.pre, r.len, r.last, free[pageStart..], ps);
    CeilDivBounds(r.pre, ps);
    var base := CeilDiv(r.pre, ps) * ps;

    // Part 1: the old partial page.
    var part1 := Min(r.len, base) - r.pre;
    OldPageBlock(r, part1, free[pageStart..], ps);
    old1 := OldPageLanes(part1, r.last);
    if r.pre + part1 == r.len {
      full2, new3 := [], [];
      assert old1 + full2 + new3 == slots;
    } else {
      full2, new3 := LaterLanes(r, base, free, pageStart, ps, maxExtend);
      assert slots == slots[..part1] + slots[part1..];
    }
  }

  method LaterLanes(r: Extend, base: nat, free: seq<int>, pageStart: nat, ps: nat, maxExtend: nat)
    returns (full2: seq<int>, new3: seq<int>)
    requires ps > 0 && r.len - r.pre <= maxExtend
    requires pageStart <= |free| && FitsIn(r, free[pageStart..], ps)
    requires base == CeilDiv(r.pre, ps) * ps && r.pre <= base < r.len
    ensures full2 + new3 == ExtendOne(r.pre, r.len, r.last, free[pageStart..], ps)[base - r.pre..]
  {
    hide CeilDiv, ExtendOne, PagesOpened, FullPageLanes;
    ghost var mine := free[pageStart..];
    ghost var slots := ExtendOne(r.pre, r.len, r.last, mine, ps);

    // Part 2: the new full pages.
    PartBounds(r.pre, r.len, ps);
    var full := r.len / ps * ps;
    var part2 := full - base;
    assert part2 <= maxExtend;
    FullPageBlock(r, base, part2, free, pageStart, ps);
    full2 := FullPageLanes(part2, free, pageStart, ps);
    if full == r.len {
      new3 := [];
      assert slots[base - r.pre..] == slots[base - r.pre..full - r.pre];
    } else {
      // Part 3: the new partial page.
      new3 := LastPageLanes(r, full, free, pageStart, ps);
      assert slots[base - r.pre..] == slots[base - r.pre..full - r.pre] + slots[full - r.pre..];
    }
  }

  method LastPageLanes(r: Extend, full: nat, free: seq<int>, pageStart: nat, ps: nat) returns (new3: seq<int>)
    requires ps > 0 && pageStart <= |free| && FitsIn(r, free[pageStart..], ps)
    requires CeilDiv(r.pre, ps) * ps < r.len && full == r.len / ps * ps && r.pre <= full < r.len
    ensures new3 == ExtendOne(r.pre, r.len, r.last, free[pageStart..], ps)[full - r.pre..]
  {
    ghost var mine := free[pageStart..];
    var selfPages := CeilDiv(r.len, ps) - CeilDiv(r.pre, ps);
    NewPageBlock(r, full, r.len - full, selfPages, mine, ps);
    assert mine[selfPages - 1] == free[pageStart + selfPages - 1];
    new3 := NewPageLanes(r.len - full, free[pageStart + selfPages - 1], ps);
  }

  /** `output_start_loc` and `new_page_start_loc`: the sums over lanes `0..pid` minus the
      program's own share. */
  method PrefixSums(batch: seq<Extend>, pid: nat, ps: nat) returns (start: nat, pageStart: nat)
    requires ps > 0 && pid < |batch| && Growing(batch)
    ensures start == TokensBefore(batch, pid) && pageStart == OpenedBefore(batch, pid, ps)
  {
    var sumExtendLens, sumNewPages := 0, 0;
    for lane := 0 to pid + 1
      invariant sumExtendLens == TokensBefore(batch, lane)
      invariant sumNewPages == OpenedBefore(batch, lane, ps)
    {
      PagesOpenedIsCeilDifference(batch[lane].pre, batch[lane].len, ps);
      sumExtendLens := sumExtendLens + (batch[lane].len - batch[lane].pre);
      sumNewPages := sumNewPages + (CeilDiv(batch[lane].len, ps) - CeilDiv(batch[lane].pre, ps));
    }
    PagesOpenedIsCeilDifference(batch[pid].pre, batch[pid].len, ps);
    start := sumExtendLens - (batch[pid].len - batch[pid].pre);
    pageStart := sumNewPages - (CeilDiv(batch[pid].len, ps) - CeilDiv(batch[pid].pre, ps));
  }

  /** `alloc_extend_kernel` for program `pid`: prefix sums over the lanes up to `pid`, then
      three stores.  Each program writes its own segment and nothing else. */
  method AllocExtendProgram(batch: seq<Extend>, pid: nat, free: seq<int>, ps: nat, maxExtend: nat, out: array<int>)
    requires ps > 0 && pid < |batch| && Growing(batch)
    requires OpenedBefore(batch, |batch|, ps) <= |free|
    requires out.Length == TokensBefore(batch, |batch|) <= maxExtend
    modifies out
    ensures SegmentDone(out[..], batch, pid, free, ps)
    ensures forall j | 0 <= j < out.Length && !(TokensBefore(batch, pid) <= j < TokensBefore(batch, pid + 1)) ::
      out[j] == old(out[j])
  {
    hide ExtendOne, PagesOpened;
    var start, pageStart := PrefixSums(batch, pid, ps);
    BeforeMonotone(batch, pid + 1, |batch|, ps);
    var old1, full2, new3 := PartLanes(batch[pid], free, pageStart, ps, maxExtend);
    Store(out, start, old1);
    Store(out, start + |old1|, full2);
    Store(out, start + |old1| + |full2|, new3);
    assert out[..][start..TokensBefore(batch, pid + 1)] == old1 + full2 + new3;
  }

  /** The kernel launch.  Programs run in any order; the output is the sequential one. */
  method LaunchExtend(batch: seq<Extend>, order: seq<nat>, free: seq<int>, ps: nat, maxExtend: nat, out: array<int>)
    requires ps > 0 && Growing(batch) && IsOrder(order, |batch|)
    requires OpenedBefore(batch, |batch|, ps) <= |free|
    requires out.Length == TokensBefore(batch, |batch|) <= maxExtend
    modifies out
    ensures out[..] == ExtendBatch(batch, |batch|, free, ps)
  {
    for k := 0 to |batch|
      invariant forall i | 0 <= i < k :: SegmentDone(out[..], batch, order[i], free, ps)
    {
      label before:
      AllocExtendProgram(batch, order[k], free, ps, maxExtend, out);
      forall i | 0 <= i < k
        ensures SegmentDone(out[..], batch, order[i], free, ps)
      {
        assert SegmentDone(old@before(out[..]), batch, order[i], free, ps);
        DisjointSegments(batch, order[i], order[k], ps);
        assert out[..][TokensBefore(batch, order[i])..TokensBefore(batch, order[i] + 1)]
            == old@before(out[..])[TokensBefore(batch, order[i])..TokensBefore(batch, order[i] + 1)];
      }
    }
    forall pid: nat | pid < |batch|
      ensures SegmentDone(out[..], batch, pid, free, ps)
    {
      OrderCovers(order, |batch|, pid);
    }
    SegmentsDetermine(out[..], batch, |batch|, free, ps);
    assert out[..] == out[..][..TokensBefore(batch, |batch|)];
  }

  method RunExtend(batch: seq<Extend>, order: seq<nat>, free: seq<int>, ps: nat, maxExtend: nat)
    returns (slots: seq<int>)
    requires ps > 0 && Growing(batch) && IsOrder(order, |batch|)
    requires OpenedBefore(batch, |batch|, ps) <= |free| && TokensBefore(batch, |batch|) <= maxExtend
    ensures slots == ExtendBatch(batch, |batch|, free, ps)
  {
    var out := new int[TokensBefore(batch, |batch|)];
    LaunchExtend(batch, order, free, ps, maxExtend, out);
    slots := out[..];
  }

  lemma DisjointSegments(batch: seq<Extend>, i: nat, j: nat, ps: nat)
    requires ps > 0 && Growing(batch) && i < |batch| && j < |batch| && i != j
    ensures TokensBefore(batch, i + 1) <= TokensBefore(batch, j) || TokensBefore(batch, j + 1) <= TokensBefore(batch, i)
  {
    if i < j {
      BeforeMonotone(batch, i + 1, j, ps);
    } else {
      BeforeMonotone(batch, j + 1, i, ps);
    }
  }

  // ---------- Decode ----------

  /** A decode batch grows every request by the one token its length already counts. */
  function DecodeBatch(lens: seq<nat>, lasts: seq<int>): (batch: seq<Extend>)
    requires |lens| == |lasts| && forall i | 0 <= i < |lens| :: lens[i] >= 1
  {
    seq(|lens|, i requires 0 <= i < |lens| => Extend(lens[i] - 1, lens[i], lasts[i]))
  }

  lemma {:induction false} DecodeTokens(lens: seq<nat>, lasts: seq<int>, k: nat)
    requires |lens| == |lasts| && k <= |lens| && forall i | 0 <= i < |lens| :: lens[i] >= 1
    ensures Growing(DecodeBatch(lens, lasts)) && TokensBefore(DecodeBatch(lens, lasts), k) == k
    decreases k
  {
    if k > 0 {
      DecodeTokens(lens, lasts, k - 1);
    }
  }

  /** `get_num_new_pages(decode=True)`: how many lengths are 1 modulo the page size. */
  function DecodePageCount(lens: seq<nat>, k: nat, ps: nat): nat
    requires ps > 0 && k <= |lens|
  {
    if k == 0 then 0 else DecodePageCount(lens, k - 1, ps) + (if lens[k - 1] % ps == 1 then 1 else 0)
  }

  lemma OneTokenPage(len: nat, ps: nat)
    requires ps > 0 && len >= 1
    ensures PagesOpened(len - 1, len, ps) == if (len - 1) % ps == 0 then 1 else 0
    ensures ps > 1 ==> (len % ps == 1 <==> (len - 1) % ps == 0)
    ensures ps == 1 ==> len % ps == 0 && (len - 1) % ps == 0
  {
    var q, r := (len - 1) / ps, (len - 1) % ps;
    assert len - 1 == ps * q + r;
    if ps == 1 {
      DivModUnique(len, 1, len, 0);
    } else if r + 1 < ps {
      DivModUnique(len, ps, q, r + 1);
    } else {
      assert len == (q + 1) * ps + 0;
      DivModUnique(len, ps, q + 1, 0);
    }
  }

  /** The decode shortcut counts the pages the kernel consumes exactly when pages hold more
      than one token (or there is nothing to decode): with one-token pages it counts none. */
  lemma {:induction false} DecodePageCountExact(lens: seq<nat>, lasts: seq<int>, k: nat, ps: nat)
    requires ps > 0 && |lens| == |lasts| && k <= |lens| && forall i | 0 <= i < |lens| :: lens[i] >= 1
    ensures Growing(DecodeBatch(lens, lasts))
    ensures DecodePageCount(lens, k, ps) == OpenedBefore(DecodeBatch(lens, lasts), k, ps) <==> ps != 1 || k == 0
    ensures ps == 1 ==> DecodePageCount(lens, k, ps) == 0 && OpenedBefore(DecodeBatch(lens, lasts), k, ps) == k
    decreases k
  {
    if k > 0 {
      DecodePageCountExact(lens, lasts, k - 1, ps);
      OneTokenPage(lens[k - 1], ps);
    }
  }

  /** Pages opened when each of the first `k` rows, of the given lengths, grows by one token. */
  function GrowthPages(lens: seq<nat>, k: nat, ps: nat): nat
    requires ps > 0 && k <= |lens|
  {
    if k == 0 then 0 else GrowthPages(lens, k - 1, ps) + PagesOpened(lens[k - 1], lens[k - 1] + 1, ps)
  }

  lemma {:induction false} GrowthIsOpened(rowLens: seq<nat>, lens: seq<nat>, lasts: seq<int>, k: nat, ps: nat)
    requires ps > 0 && |rowLens| == |lens| == |lasts| && k <= |lens|
    requires forall i | 0 <= i < |lens| :: lens[i] == rowLens[i] + 1
    ensures Growing(DecodeBatch(lens, lasts))
    ensures OpenedBefore(DecodeBatch(lens, lasts), k, ps) == GrowthPages(rowLens, k, ps)
    decreases k
  {
    if k > 0 {
      GrowthIsOpened(rowLens, lens, lasts, k - 1, ps);
    }
  }

  lemma {:induction false} GrowthMonotone(lens: seq<nat>, i: nat, k: nat, ps: nat)
    requires ps > 0 && i <= k <= |lens|
    ensures GrowthPages(lens, i, ps) <= GrowthPages(lens, k, ps) <= GrowthPages(lens, i, ps) + (k - i)
    decreases k
  {
    if i < k {
      GrowthMonotone(lens, i, k - 1, ps);
      OneTokenPage(lens[k - 1] + 1, ps);
    }
  }

  /** The slot a row gets: the next of its last page, or the first of the page after those of the rows
      before it. */
  lemma DecodeSlot(rowLens: seq<nat>, lens: seq<nat>, lasts: seq<int>, i: nat, free: seq<int>, ps: nat)
    requires ps > 0 && |rowLens| == |lens| == |lasts| && i < |lens|
    requires forall j | 0 <= j < |lens| :: lens[j] == rowLens[j] + 1
    requires GrowthPages(rowLens, |lens|, ps) <= |free|
    ensures Growing(DecodeBatch(lens, lasts)) && OpenedBefore(DecodeBatch(lens, lasts), |lens|, ps) <= |free|
    ensures |ExtendBatch(DecodeBatch(lens, lasts), |lens|, free, ps)| == |lens|
    ensures var g := GrowthPages(rowLens, i, ps);
            && (rowLens[i] % ps == 0 ==> g < |free|)
            && ExtendBatch(DecodeBatch(lens, lasts), |lens|, free, ps)[i]
                 == if rowLens[i] % ps == 0 then free[g] * ps else lasts[i] + 1
  {
    hide ExtendBatch, OpenedBefore, GrowthPages, TokensBefore;
    var batch := DecodeBatch(lens, lasts);
    GrowthIsOpened(rowLens, lens, lasts, |lens|, ps);
    GrowthIsOpened(rowLens, lens, lasts, i, ps);
    DecodeTokens(lens, lasts, |lens|);
    DecodeTokens(lens, lasts, i);
    DecodeTokens(lens, lasts, i + 1);
    SegmentOfBatch(batch, i, |lens|, free, ps);
    var out := ExtendBatch(batch, |lens|, free, ps);
    assert out[i..i + 1] == [out[i]];
    OneSlotOf(batch, i, free, ps);
  }

  lemma OneSlotOf(batch: seq<Extend>, i: nat, free: seq<int>, ps: nat)
    requires ps > 0 && i < |batch| && Growing(batch) && batch[i].len == batch[i].pre + 1
    requires OpenedBefore(batch, i + 1, ps) <= |free|
    ensures var g := OpenedBefore(batch, i, ps);
            && (batch[i].pre % ps == 0 ==> g < |free|)
            && SlotsOf(batch, i, free, ps) == [if batch[i].pre % ps == 0 then free[g] * ps else batch[i].last + 1]
  {
    OneTokenPage(batch[i].len, ps);
  }

  /** `alloc_decode_kernel` for program `pid`. */
  method AllocDecodeProgram(lens: seq<nat>, lasts: seq<int>, pid: nat, free: seq<int>, ps: nat, out: array<int>)
    requires ps > 0 && |lens| == |lasts| == out.Length && pid < |lens| && forall i | 0 <= i < |lens| :: lens[i] >= 1
    requires Growing(DecodeBatch(lens, lasts)) && OpenedBefore(DecodeBatch(lens, lasts), pid + 1, ps) <= |free|
    modifies out
    ensures [out[pid]] == SlotsOf(DecodeBatch(lens, lasts), pid, free, ps)
    ensures forall j | 0 <= j < out.Length && j != pid :: out[j] == old(out[j])
  {
    var len := lens[pid];
    var pageStart := DecodePageStart(lens, lasts, pid, ps);
    OneTokenPage(len, ps);
    PagesOpenedIsCeilDifference(len - 1, len, ps);
    assert DecodeBatch(lens, lasts)[pid] == Extend(len - 1, len, lasts[pid]);
    if CeilDiv(len, ps) - CeilDiv(len - 1, ps) == 0 {
      out[pid] := lasts[pid] + 1;
    } else {
      out[pid] := free[pageStart] * ps;
    }
  }

  method DecodePageStart(lens: seq<nat>, lasts: seq<int>, pid: nat, ps: nat) returns (pageStart: nat)
    requires ps > 0 && |lens| == |lasts| && pid < |lens| && forall i | 0 <= i < |lens| :: lens[i] >= 1
    requires Growing(DecodeBatch(lens, lasts))
    ensures pageStart == OpenedBefore(DecodeBatch(lens, lasts), pid, ps)
  {
    var sum := 0;
    for lane := 0 to pid + 1
      invariant sum == OpenedBefore(DecodeBatch(lens, lasts), lane, ps)
    {
      PagesOpenedIsCeilDifference(lens[lane] - 1, lens[lane], ps);
      sum := sum + (CeilDiv(lens[lane], ps) - CeilDiv(lens[lane] - 1, ps));
    }
    PagesOpenedIsCeilDifference(lens[pid] - 1, lens[pid], ps);
    pageStart := sum - (CeilDiv(lens[pid], ps) - CeilDiv(lens[pid] - 1, ps));
  }

  method LaunchDecode(lens: seq<nat>, lasts: seq<int>, order: seq<nat>, free: seq<int>, ps: nat, out: array<int>)
    requires ps > 0 && |lens| == |lasts| == out.Length && forall i | 0 <= i < |lens| :: lens[i] >= 1
    requires IsOrder(order, |lens|) && Growing(DecodeBatch(lens, lasts))
    requires OpenedBefore(DecodeBatch(lens, lasts), |lens|, ps) <= |free|
    modifies out
    ensures out[..] == ExtendBatch(DecodeBatch(lens, lasts), |lens|, free, ps)
  {
    ghost var batch := DecodeBatch(lens, lasts);
    for k := 0 to |lens|
      invariant forall i | 0 <= i < k ::
        OpenedBefore(batch, order[i] + 1, ps) <= |free| && [out[order[i]]] == SlotsOf(batch, order[i], free, ps)
    {
      BeforeMonotone(batch, order[k] + 1, |lens|, ps);
      AllocDecodeProgram(lens, lasts, order[k], free, ps, out);
    }
    forall pid: nat | pid < |lens|
      ensures SegmentDone(out[..], batch, pid, free, ps)
    {
      OrderCovers(order, |lens|, pid);
      DecodeTokens(lens, lasts, pid);
      DecodeTokens(lens, lasts, pid + 1);
    }
    DecodeTokens(lens, lasts, |lens|);
    SegmentsDetermine(out[..], batch, |lens|, free, ps);
    assert out[..] == out[..][..|lens|];
  }

  method RunDecode(lens: seq<nat>, lasts: seq<int>, order: seq<nat>, free: seq<int>, ps: nat)
    returns (slots: seq<int>)
    requires ps > 0 && |lens| == |lasts| && forall i | 0 <= i < |lens| :: lens[i] >= 1
    requires IsOrder(order, |lens|) && Growing(DecodeBatch(lens, lasts))
    requires OpenedBefore(DecodeBatch(lens, lasts), |lens|, ps) <= |free|
    ensures slots == ExtendBatch(DecodeBatch(lens, lasts), |lens|, free, ps)
  {
    var out := new int[|lens|];
    LaunchDecode(lens, lasts, order, free, ps, out);
    slots := out[..];
  }

  // ---------- The allocator ----------

  predicate Ascending(s: seq<int>) {
    forall i, j | 0 <= i < j < |s| :: s[i] < s[j]
  }

  lemma AscendingCons(x: int, s: seq<int>)
    requires Ascending(s) && (s != [] ==> x < s[0])
    ensures Ascending([x] + s)
  {
    forall i, j | 0 <= i < j < |[x] + s|
      ensures ([x] + s)[i] < ([x] + s)[j]
    {
      assert ([x] + s)[j] == s[j - 1];
      assert i > 0 ==> ([x] + s)[i] == s[i - 1];
    }
  }

  function InsertSorted(x: int, s: seq<int>): (r: seq<int>)
    requires Ascending(s)
    ensures Ascending(r) && forall y :: y in r <==> y == x || y in s
  {
    if s == [] then [x]
    else if x < s[0] then [x] + s
    else if x == s[0] then s
    else
      var rest := InsertSorted(x, s[1..]);
      assert forall y :: y in s <==> y == s[0] || y in s[1..];
      assert rest != [] ==> rest[0] in rest && rest[0] > s[0];
      AscendingCons(s[0], rest);
      [s[0]] + rest
  }

  /** `torch.unique`: ascending, without repetition. */
  function Unique(s: seq<int>): (r: seq<int>)
    ensures Ascending(r) && forall y :: y in r <==> y in s
  {
    if s == [] then [] else
      assert forall y :: y in s <==> y == s[0] || y in s[1..];
      InsertSorted(s[0], Unique(s[1..]))
  }

  /** An ascending sequence is determined by its elements. */
  lemma {:induction false} AscendingDetermined(a: seq<int>, b: seq<int>)
    requires Ascending(a) && Ascending(b) && forall y :: y in a <==> y in b
    ensures a == b
  {
    if a == [] {
      assert forall i | 0 <= i < |b| :: b[i] in b;
    } else {
      assert a[0] in b && b[0] in a;
      assert a[0] == b[0];
      forall y
        ensures y in a[1..] <==> y in b[1..]
      {
        assert y in a <==> y == a[0] || y in a[1..];
        assert y in b <==> y == b[0] || y in b[1..];
      }
      AscendingDetermined(a[1..], b[1..]);
    }
  }

  /** The page ids of the slots, page 0 and ids above `numPages` masked out. */
  function ValidPages(indices: seq<int>, ps: nat, numPages: nat): seq<int>
    requires ps > 0
  {
    if indices == [] then []
    else
      var id := indices[0] / ps;
      var rest := ValidPages(indices[1..], ps, numPages);
      if 1 <= id <= numPages then [id] + rest else rest
  }

  lemma {:induction false} ValidPagesMembers(indices: seq<int>, ps: nat, numPages: nat, page: int)
    requires ps > 0
    ensures page in ValidPages(indices, ps, numPages) <==>
              1 <= page <= numPages && exists i | 0 <= i < |indices| :: indices[i] / ps == page
  {
    if indices != [] {
      ValidPagesMembers(indices[1..], ps, numPages, page);
      if i :| 0 <= i < |indices| && indices[i] / ps == page {
        assert i > 0 ==> indices[1..][i - 1] / ps == page;
      }
      assert forall i | 0 <= i < |indices| - 1 :: indices[1..][i] == indices[i + 1];
    }
  }

  /** The free list after returning the pages of `indices`: sorted and deduplicated, and
      left alone when no valid page is returned. */
  function FreeInto(free: seq<int>, indices: seq<int>, ps: nat, numPages: nat): seq<int>
    requires ps > 0
  {
    var pages := ValidPages(indices, ps, numPages);
    if pages == [] then free else Unique(Unique(pages) + free)
  }

  lemma FreeIntoElements(free: seq<int>, indices: seq<int>, ps: nat, numPages: nat)
    requires ps > 0
    ensures forall y :: y in FreeInto(free, indices, ps, numPages) <==>
              y in free || y in ValidPages(indices, ps, numPages)
    ensures ValidPages(indices, ps, numPages) != [] ==> Ascending(FreeInto(free, indices, ps, numPages))
    ensures forall y :: y in ValidPages(indices, ps, numPages) ==> 1 <= y <= numPages
  {
    forall y | y in ValidPages(indices, ps, numPages)
      ensures 1 <= y <= numPages
    {
      ValidPagesMembers(indices, ps, numPages, y);
    }
  }

  /** Batching frees in a group changes nothing: freeing two index lists together leaves the
      same free list, in the same order, as freeing one after the other. */
  lemma FreeGroupIsSequentialFree(free: seq<int>, a: seq<int>, b: seq<int>, ps: nat, numPages: nat)
    requires ps > 0
    ensures FreeInto(free, a + b, ps, numPages) == FreeInto(FreeInto(free, a, ps, numPages), b, ps, numPages)
  {
    ValidPagesOfConcat(a, b, ps, numPages);
    FreeIntoElements(free, a, ps, numPages);
    var mid := FreeInto(free, a, ps, numPages);
    FreeIntoElements(mid, b, ps, numPages);
    FreeIntoElements(free, a + b, ps, numPages);
    var pa, pb, pab := ValidPages(a, ps, numPages), ValidPages(b, ps, numPages), ValidPages(a + b, ps, numPages);
    if pa == [] {
      assert pab == pb;
    } else if pb == [] {
      assert pab == pa;
    } else {
      AscendingDetermined(FreeInto(free, a + b, ps, numPages), FreeInto(mid, b, ps, numPages));
    }
  }

  lemma {:induction false} ValidPagesOfConcat(a: seq<int>, b: seq<int>, ps: nat, numPages: nat)
    requires ps > 0
    ensures ValidPages(a + b, ps, numPages) == ValidPages(a, ps, numPages) + ValidPages(b, ps, numPages)
  {
    if a == [] {
      assert a + b == b;
    } else {
      ValidPagesOfConcat(a[1..], b, ps, numPages);
      assert (a + b)[1..] == a[1..] + b;
    }
  }

  function Concat(groups: seq<seq<int>>): seq<int> {
    if groups == [] then [] else Concat(groups[..|groups| - 1]) + groups[|groups| - 1]
  }

  class PagedTokenAllocator {
    const size: nat
    const pageSize: nat
    const numPages: nat
    var seenMaxExtend: nat
    var freePages: seq<int>
    var isNotInFreeGroup: bool
    var freeGroup: seq<seq<int>>

    ghost predicate Valid()
      reads this
    {
      && pageSize > 0 && seenMaxExtend >= 1
      && Distinct(freePages) && (forall p | p in freePages :: 1 <= p <= numPages)
      && (isNotInFreeGroup ==> freeGroup == [])
    }

    /** Free pages once a pending free group is flushed. */
    ghost function Settled(): seq<int>
      requires pageSize > 0
      reads this
    {
      FreeInto(freePages, Concat(freeGroup), pageSize, numPages)
    }

    constructor (size: nat, pageSize: nat)
      requires pageSize > 0
      ensures Valid() && this.size == size && this.pageSize == pageSize && isNotInFreeGroup
      ensures numPages == size / pageSize
      ensures |freePages| == numPages && forall i | 0 <= i < numPages :: freePages[i] == i + 1
    {
      this.size := size;
      this.pageSize := pageSize;
      numPages := size / pageSize;
      seenMaxExtend := 1;
      freePages := seq(size / pageSize, i => i + 1);
      isNotInFreeGroup := true;
      freeGroup := [];
    }

    /** `available_size`: pages waiting in a free group do not count. */
    function AvailableSize(): int
      reads this
    {
      |freePages| * pageSize
    }

    /** `alloc_extend`.  `order` is the order in which the GPU runs the programs. */
    method AllocExtend(batch: seq<Extend>, extendNumTokens: nat, order: seq<nat>) returns (r: Option<seq<int>>)
      requires Valid() && Growing(batch) && IsOrder(order, |batch|)
      requires extendNumTokens == TokensBefore(batch, |batch|)
      modifies this
      ensures Valid() && isNotInFreeGroup == old(isNotInFreeGroup) && freeGroup == old(freeGroup)
      ensures r.Some? <==> OpenedBefore(batch, |batch|, pageSize) <= |old(freePages)|
      ensures r.None? ==> freePages == old(freePages)
      ensures r.Some? ==>
        && r.value == ExtendBatch(batch, |batch|, old(freePages), pageSize)
        && freePages == old(freePages)[OpenedBefore(batch, |batch|, pageSize)..]
    {
      var numNewPages := GetNumNewPages(batch, pageSize);
      if numNewPages > |freePages| {
        return None;
      }
      var pow := NextPow2(extendNumTokens, 1);
      if seenMaxExtend < pow {
        seenMaxExtend := pow;
      }
      var out := RunExtend(batch, order, freePages, pageSize, seenMaxExtend);
      r := Some(out);
      TakePages(numNewPages);
    }

    method TakePages(n: nat)
      requires Valid() && n <= |freePages|
      modifies this`freePages
      ensures Valid() && freePages == old(freePages)[n..]
    {
      assert forall p | p in freePages[n..] :: p in freePages;
      freePages := freePages[n..];
    }

    /** `alloc_decode`.  One-token pages are excluded: for them the host counts no new page
        although every program takes one (`DecodePageCountExact`). */
    method AllocDecode(lens: seq<nat>, lasts: seq<int>, order: seq<nat>) returns (r: Option<seq<int>>)
      requires Valid() && pageSize > 1 && |lens| == |lasts| && IsOrder(order, |lens|)
      requires forall i | 0 <= i < |lens| :: lens[i] >= 1
      modifies this
      ensures Valid() && isNotInFreeGroup == old(isNotInFreeGroup) && freeGroup == old(freeGroup)
      ensures Growing(DecodeBatch(lens, lasts))
      ensures r.Some? <==> OpenedBefore(DecodeBatch(lens, lasts), |lens|, pageSize) <= |old(freePages)|
      ensures r.None? ==> freePages == old(freePages)
      ensures r.Some? ==>
        && r.value == ExtendBatch(DecodeBatch(lens, lasts), |lens|, old(freePages), pageSize)
        && freePages == old(freePages)[OpenedBefore(DecodeBatch(lens, lasts), |lens|, pageSize)..]
    {
      var numNewPages := 0;
      for k := 0 to |lens|
        invariant numNewPages == DecodePageCount(lens, k, pageSize)
      {
        if lens[k] % pageSize == 1 {
          numNewPages := numNewPages + 1;
        }
      }
      DecodePageCountExact(lens, lasts, |lens|, pageSize);
      if numNewPages > |freePages| {
        return None;
      }
      var out := RunDecode(lens, lasts, order, freePages, pageSize);
      r := Some(out);
      TakePages(numNewPages);
    }

    /** `free`: page-granular, deduplicating; deferred while a free group is open. */
    method Free(indices: seq<int>)
      requires Valid()
      modifies this
      ensures Valid() && isNotInFreeGroup == old(isNotInFreeGroup)
      ensures isNotInFreeGroup ==> freePages == FreeInto(old(freePages), indices, pageSize, numPages)
      ensures !isNotInFreeGroup ==> freePages == old(freePages)
      ensures Settled() == FreeInto(old(Settled()), indices, pageSize, numPages)
    {
      if |indices| == 0 {
        return;
      }
      FreeIntoElements(freePages, indices, pageSize, numPages);
      if isNotInFreeGroup {
        var pages := Unique(ValidPages(indices, pageSize, numPages));
        ghost var valid := ValidPages(indices, pageSize, numPages);
        assert valid != [] ==> valid[0] in pages;
        if |pages| == 0 {
          return;
        }
        freePages := Unique(pages + freePages);
        assert pages[0] in ValidPages(indices, pageSize, numPages);
      } else {
        FreeGroupIsSequentialFree(freePages, Concat(freeGroup), indices, pageSize, numPages);
        freeGroup := freeGroup + [indices];
        assert freeGroup[..|freeGroup| - 1] == old(freeGroup);
      }
    }

    method BeginFreeGroup()
      requires Valid()
      modifies this
      ensures Valid() && !isNotInFreeGroup && freePages == old(freePages) && freeGroup == old(freeGroup)
    {
      isNotInFreeGroup := false;
    }

    /** Flushing leaves exactly the free list that immediate frees would have left. */
    method EndFreeGroup()
      requires Valid()
      modifies this
      ensures Valid() && isNotInFreeGroup && freeGroup == []
      ensures freePages == old(Settled())
    {
      FlushFreeGroup();
      isNotInFreeGroup := true;
    }

    method FlushFreeGroup()
      requires Valid()
      modifies this
      ensures Valid() && isNotInFreeGroup == old(isNotInFreeGroup) && freeGroup == []
      ensures freePages == old(Settled())
    {
      if freeGroup == [] {
        return;
      }
      var indices := Concat(freeGroup);
      freeGroup := [];
      FreeIntoElements(freePages, indices, pageSize, numPages);
      freePages := FreeInto(freePages, indices, pageSize, numPages);
    }
  }

  /** `get_num_new_pages` for an extend batch, on the host. */
  method GetNumNewPages(batch: seq<Extend>, ps: nat) returns (n: int)
    requires ps > 0 && Growing(batch)
    ensures n == OpenedBefore(batch, |batch|, ps)
  {
    n := 0;
    for k := 0 to |batch|
      invariant n == OpenedBefore(batch, k, ps)
    {
      PagesOpenedIsCeilDifference(batch[k].pre, batch[k].len, ps);
      n := n + (CeilDiv(batch[k].len, ps) - CeilDiv(batch[k].pre, ps));
    }
  }
}
