/** The one-launch alignment of small batches: a single program owns the whole routing, so each pair
    finds its place from a prefix count and no atomic add is needed.  Its block entries are written by
    `lanes` lanes only, which decides when its result is an alignment. */
module MoeSmallBatch {
  import opened Pages
  import opened Orders
  import opened MoeAlignment

  /** `max(next_power_of_2(block_size), 2)`. */
  function BlockLanes(B: nat): (r: nat)
    ensures r >= B && r >= 2
  {
    if NextPow2(B, 1) >= 2 then NextPow2(B, 1) else 2
  }

  /** The entry of block `b` in the bucket of `e`: written by a lane, or left at its initial zero. */
  predicate LanesWrote(cs: seq<nat>, experts: seq<nat>, e: nat, B: nat)
    requires B > 0 && e < |cs| && Blocks(cs, e + 1, B) <= |experts|
  {
    forall b: nat | Blocks(cs, e, B) <= b < Blocks(cs, e + 1, B) ::
      experts[b] == if b < Blocks(cs, e, B) + BlockLanes(B) then e else 0
  }

  predicate SmallDone(ids: seq<nat>, cs: seq<nat>, sorted: seq<nat>, experts: seq<nat>, B: nat, e: nat)
    requires B > 0 && e < |cs|
  {
    && InOrder(ids, cs, sorted, e, B)
    && Base(cs, e + 1, B) <= |sorted| && PaddingOk(cs, sorted, e, B, |ids|)
    && Blocks(cs, e + 1, B) <= |experts| && LanesWrote(cs, experts, e, B)
  }

  predicate SmallTo(ids: seq<nat>, cs: seq<nat>, sorted: seq<nat>, experts: seq<nat>, B: nat, n: nat)
    requires B > 0
  {
    forall e: nat | e < n && e < |cs| :: SmallDone(ids, cs, sorted, experts, B, e)
  }

  /** The inclusive prefix count of a pair's expert is one past the pair's rank in its bucket. */
  lemma {:induction false} RankIsPrefix(ids: seq<nat>, n: nat)
    requires n < |ids|
    ensures var k := |PairsOf(ids[..n + 1], ids[n])|;
            0 < k <= |PairsOf(ids, ids[n])| && PairsOf(ids, ids[n])[k - 1] == n
    decreases |ids|
  {
    var last := |ids| - 1;
    if n < last {
      RankIsPrefix(ids[..last], n);
      assert ids[..last][..n + 1] == ids[..n + 1];
    } else {
      assert ids[..n + 1] == ids;
    }
  }

  /** What the program writes for one expert. */
  method AlignExpert(ids: seq<nat>, cs: seq<nat>, B: nat, e: nat, sorted: array<nat>, experts: array<nat>)
    requires B > 0 && e < |cs| && cs[e] == |PairsOf(ids, e)| && sorted != experts
    requires Base(cs, e + 1, B) <= sorted.Length && Blocks(cs, e + 1, B) <= experts.Length
    requires SmallTo(ids, cs, sorted[..], experts[..], B, e)
    requires forall b | Blocks(cs, e, B) <= b < experts.Length :: experts[b] == 0
    modifies sorted, experts
    ensures SmallTo(ids, cs, sorted[..], experts[..], B, e + 1)
    ensures forall b | Blocks(cs, e + 1, B) <= b < experts.Length :: experts[b] == 0
  {
    hide SmallDone, PairsOf, BlockLanes;
    var cnt, pad, base := cs[e], Padded(cs[e], B), Base(cs, e, B);
    WriteTokens(ids, e, base, sorted);
    StoreLanes(sorted, base + cnt, BlockLanes(B), pad - cnt, |ids|);
    assert sorted[base..base + cnt] == PairsOf(ids, e);
    BaseIsBlocks(cs, e, B);
    PaddedIsCeil(cnt, B);
    DivModUnique(pad, B, NumBlocks(cnt, B), 0);
    StoreLanes(experts, base / B, BlockLanes(B), pad / B, e);
    SmallStep(ids, cs, B, e, old(sorted[..]), sorted[..], old(experts[..]), experts[..]);
  }

  /** A masked store: each of the first `count` lanes, if there is one, writes its cell. */
  method StoreLanes(a: array<nat>, from: nat, lanes: nat, count: nat, value: nat)
    requires from + count <= a.Length
    modifies a
    ensures forall p | 0 <= p < a.Length ::
        a[p] == if from <= p < from + lanes && p < from + count then value else old(a[p])
  {
    forall lane | 0 <= lane < lanes && lane < count {
      a[from + lane] := value;
    }
  }

  method WriteTokens(ids: seq<nat>, e: nat, base: nat, sorted: array<nat>)
    requires base + |PairsOf(ids, e)| <= sorted.Length
    modifies sorted
    ensures sorted[base..base + |PairsOf(ids, e)|] == PairsOf(ids, e)
    ensures forall p | 0 <= p < base || base + |PairsOf(ids, e)| <= p < sorted.Length :: sorted[p] == old(sorted[p])
  {
    for n := 0 to |ids|
      invariant forall k: nat | k < |PairsOf(ids, e)| && PairsOf(ids, e)[k] < n ::
          sorted[base + k] == PairsOf(ids, e)[k]
      invariant forall p | 0 <= p < base || base + |PairsOf(ids, e)| <= p < sorted.Length :: sorted[p] == old(sorted[p])
    {
      if ids[n] == e {
        RankIsPrefix(ids, n);
        PairsAscend(ids, e);
        var prefix := |PairsOf(ids[..n + 1], e)|;
        sorted[base + prefix - 1] := n;
      } else {
        PairsAreMembers(ids, e);
        assert n !in PairsOf(ids, e);
      }
    }
    PairsAscend(ids, e);
  }

  lemma SmallStep(ids: seq<nat>, cs: seq<nat>, B: nat, e: nat, s: seq<nat>, s': seq<nat>, x: seq<nat>, x': seq<nat>)
    requires B > 0 && e < |cs| && |s'| == |s| && |x'| == |x|
    requires Base(cs, e + 1, B) <= |s'| && Blocks(cs, e + 1, B) <= |x'|
    requires SmallTo(ids, cs, s, x, B, e)
    requires forall p | 0 <= p < Base(cs, e, B) :: s'[p] == s[p]
    requires forall b | 0 <= b < Blocks(cs, e, B) :: x'[b] == x[b]
    requires s'[Base(cs, e, B)..Base(cs, e, B) + cs[e]] == PairsOf(ids, e)
    requires forall p | Base(cs, e, B) + cs[e] <= p < Base(cs, e + 1, B) :: s'[p] == |ids|
    requires LanesWrote(cs, x', e, B)
    ensures SmallTo(ids, cs, s', x', B, e + 1)
  {
    hide PairsOf, BlockLanes, NumBlocks, Padded;
    assert SmallDone(ids, cs, s', x', B, e);
    forall d: nat | d < e
      ensures SmallDone(ids, cs, s', x', B, d)
    {
      assert SmallDone(ids, cs, s, x, B, d);
      Monotone(cs, d + 1, e, B);
      var lo := Base(cs, d, B);
      assert s'[lo..lo + cs[d]] == s[lo..lo + cs[d]];
    }
  }

  /** When the one-launch path is right: expert 0's entries are right even where no lane wrote. */
  predicate EnoughLanes(ids: seq<nat>, E: nat, B: nat)
    requires B > 0
  {
    forall e: nat | 0 < e < E :: NumBlocks(Counts(ids, E)[e], B) <= BlockLanes(B)
  }

  /** Tokens are placed in reference order whatever the routing; the block entries, hence the whole
      result, are right exactly when every expert but the first has at most one block per lane. */
  method AlignSmallBatch(ids: seq<nat>, E: nat, B: nat) returns (sorted: array<nat>, experts: array<nat>, total: nat)
    requires B > 0 && Routed(ids, E)
    ensures total == Base(Counts(ids, E), E, B) <= sorted.Length == |ids| + Slack(E, B)
    ensures experts.Length == CeilDiv(sorted.Length, B) && forall b | total / B <= b < experts.Length :: experts[b] == 0
    ensures forall e: nat | e < E :: InOrder(ids, Counts(ids, E), sorted[..], e, B)
    ensures IsAlignment(ids, E, B, sorted[..], experts[..], total) <==> EnoughLanes(ids, E, B)
  {
    hide IsAlignment, SmallDone, EnoughLanes, Base, Blocks, Counts, PairsOf, Slack, CeilDiv, InOrder;
    var cs := Counts(ids, E);
    TotalFitsBuffer(ids, E, B);
    sorted := new nat[|ids| + Slack(E, B)](_ => 0);
    experts := new nat[CeilDiv(sorted.Length, B)](_ => 0);
    FitsWhole(cs, B, sorted.Length, experts.Length);
    total := Base(cs, E, B);
    for e := 0 to E
      invariant SmallTo(ids, cs, sorted[..], experts[..], B, e)
      invariant forall b | Blocks(cs, e, B) <= b < experts.Length :: experts[b] == 0
    {
      assert Base(cs, e + 1, B) <= sorted.Length && Blocks(cs, e + 1, B) <= experts.Length;
      CountAt(ids, cs, e);
      AlignExpert(ids, cs, B, e, sorted, experts);
    }
    BaseIsBlocks(cs, E, B);
    SmallResult(ids, E, B, sorted[..], experts[..], total);
  }

  lemma SmallResult(ids: seq<nat>, E: nat, B: nat, sorted: seq<nat>, experts: seq<nat>, total: nat)
    requires B > 0 && SmallTo(ids, Counts(ids, E), sorted, experts, B, E)
    requires total == Base(Counts(ids, E), E, B) && Fits(Counts(ids, E), B, |sorted|, |experts|)
    ensures forall e: nat | e < E :: InOrder(ids, Counts(ids, E), sorted, e, B)
    ensures IsAlignment(ids, E, B, sorted, experts, total) <==> EnoughLanes(ids, E, B)
  {
    hide Base, Counts, PairsOf, PaddingOk, LanesWrote, ExpertsOk;
    var cs := Counts(ids, E);
    forall e: nat | e < E
      ensures Base(cs, e + 1, B) <= |sorted| && Blocks(cs, e + 1, B) <= |experts|
      ensures InOrder(ids, cs, sorted, e, B) && PairsOk(ids, cs, sorted, e, B) && PaddingOk(cs, sorted, e, B, |ids|)
      ensures ExpertsOk(cs, experts, e, B) <==> e == 0 || NumBlocks(cs[e], B) <= BlockLanes(B)
    {
      assert SmallDone(ids, cs, sorted, experts, B, e);
      LanesDecide(cs, experts, e, B);
    }
  }

  lemma LanesDecide(cs: seq<nat>, experts: seq<nat>, e: nat, B: nat)
    requires B > 0 && e < |cs| && Blocks(cs, e + 1, B) <= |experts| && LanesWrote(cs, experts, e, B)
    ensures ExpertsOk(cs, experts, e, B) <==> e == 0 || NumBlocks(cs[e], B) <= BlockLanes(B)
  {
    hide BlockLanes;
    var b := Blocks(cs, e, B) + BlockLanes(B);
    if b < Blocks(cs, e + 1, B) {
      assert experts[b] == 0;
    }
  }

  /** With a block size of 32 the guard of at most 1024 pairs always leaves enough lanes. */
  lemma DefaultBlockHasLanes(ids: seq<nat>, E: nat)
    requires |ids| <= 1024
    ensures EnoughLanes(ids, E, 32)
  {
    forall e: nat | 0 < e < E
      ensures NumBlocks(Counts(ids, E)[e], 32) <= BlockLanes(32)
    {
      PairsAreMembers(ids, e);
      SubsetCard(Members(ids, e), Range(|ids|));
      PaddedIsCeil(Counts(ids, E)[e], 32);
    }
  }

  /** With a block size of 1 there are two lanes: three pairs for expert 1 are one too many. */
  lemma LanesCanRunOut()
    ensures !EnoughLanes([1, 1, 1], 2, 1)
  {
    var ids := [1, 1, 1];
    assert ids[..2] == [1, 1] && ids[..2][..1] == [1] && ids[..2][..1][..0] == [];
    assert PairsOf(ids[..2][..1], 1) == [0];
    assert PairsOf(ids[..2], 1) == [0, 1];
    assert PairsOf(ids, 1) == [0, 1, 2];
    assert Counts(ids, 2)[1] == 3;
    PaddedIsCeil(3, 1);
    assert NumBlocks(3, 1) == 3;
    assert BlockLanes(1) == 2;
  }
}
