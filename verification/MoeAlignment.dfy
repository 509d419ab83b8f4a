/** Token alignment of the fused mixture-of-experts layer.  The flat list `ids` names the expert of
    each (token, k) pair; the pairs are grouped by expert and each group is padded to whole blocks.
    A sequential reference and a pipeline of four kernels with atomic adds are modelled, for every
    order in which the kernels' lanes and programs run. */
module MoeAlignment {
  import opened Pages
  import opened Orders

  // ---- Buckets -------------------------------------------------------------------------------

  predicate Routed(ids: seq<nat>, E: nat) {
    forall i | 0 <= i < |ids| :: ids[i] < E
  }

  /** The pairs of an expert in ascending order: its run in a stable sort by expert. */
  function PairsOf(ids: seq<nat>, e: nat): (r: seq<nat>) {
    if ids == [] then []
    else
      var n := |ids| - 1;
      if ids[n] == e then PairsOf(ids[..n], e) + [n] else PairsOf(ids[..n], e)
  }

  ghost function Members(ids: seq<nat>, e: nat): set<nat> {
    set i | 0 <= i < |ids| && ids[i] == e
  }

  function NumBlocks(c: nat, B: nat): nat
    requires B > 0
  {
    if c == 0 then 0 else if c <= B then 1 else NumBlocks(c - B, B) + 1
  }

  function Padded(c: nat, B: nat): (r: nat)
    requires B > 0
    ensures c <= r < c + B
  {
    if c == 0 then 0 else if c <= B then B else Padded(c - B, B) + B
  }

  function PadUp(c: nat, B: nat): nat
    requires B > 0
  {
    CeilDiv(c, B) * B
  }

  /** The padding the host allows for: `B - 1` cells for each expert. */
  function Slack(E: nat, B: nat): nat
    requires B > 0
  {
    E * (B - 1)
  }

  /** `NumBlocks` is the ceiling division by the block size, and `Padded` its product with it. */
  lemma {:induction false} PaddedIsCeil(c: nat, B: nat)
    requires B > 0
    ensures NumBlocks(c, B) == CeilDiv(c, B) && Padded(c, B) == PadUp(c, B) == NumBlocks(c, B) * B
  {
    if c == 0 {
      DivModUnique(B - 1, B, 0, B - 1);
    } else if c <= B {
      DivModUnique(c + B - 1, B, 1, c - 1);
    } else {
      PaddedIsCeil(c - B, B);
      var q := NumBlocks(c - B, B);
      Spread(q, 1, B);
      DivModUnique(c + B - 1, B, q + 1, (c - B + B - 1) % B);
    }
  }

  function Counts(ids: seq<nat>, E: nat): (r: seq<nat>)
    ensures |r| == E && forall e | 0 <= e < E :: r[e] == |PairsOf(ids, e)|
  {
    if E == 0 then [] else Counts(ids, E - 1) + [|PairsOf(ids, E - 1)|]
  }

  /** Where the bucket of expert `e` starts, and in the last instance where all buckets end. */
  function Base(cs: seq<nat>, e: nat, B: nat): nat
    requires B > 0 && e <= |cs|
  {
    if e == 0 then 0 else Base(cs, e - 1, B) + Padded(cs[e - 1], B)
  }

  function Blocks(cs: seq<nat>, e: nat, B: nat): nat
    requires B > 0 && e <= |cs|
  {
    if e == 0 then 0 else Blocks(cs, e - 1, B) + NumBlocks(cs[e - 1], B)
  }

  function Sum(cs: seq<nat>): nat {
    if cs == [] then 0 else Sum(cs[..|cs| - 1]) + cs[|cs| - 1]
  }

  lemma {:induction false} BaseIsBlocks(cs: seq<nat>, e: nat, B: nat)
    requires B > 0 && e <= |cs|
    ensures Base(cs, e, B) == Blocks(cs, e, B) * B && Base(cs, e, B) / B == Blocks(cs, e, B)
  {
    if e > 0 {
      BaseIsBlocks(cs, e - 1, B);
      PaddedIsCeil(cs[e - 1], B);
      Spread(Blocks(cs, e - 1, B), NumBlocks(cs[e - 1], B), B);
    }
    DivModUnique(Base(cs, e, B), B, Blocks(cs, e, B), 0);
  }

  lemma Spread(a: nat, b: nat, B: nat)
    ensures (a + b) * B == a * B + b * B
  {
  }

  lemma {:induction false} Monotone(cs: seq<nat>, d: nat, e: nat, B: nat)
    requires B > 0 && d <= e <= |cs|
    ensures Base(cs, d, B) <= Base(cs, e, B) && Blocks(cs, d, B) <= Blocks(cs, e, B)
    decreases e
  {
    if d < e {
      Monotone(cs, d, e - 1, B);
    }
  }

  /** Buckets of different experts do not meet, in tokens or in blocks. */
  lemma BucketsApart(cs: seq<nat>, d: nat, e: nat, B: nat)
    requires B > 0 && d < |cs| && e < |cs| && d != e
    ensures Base(cs, d + 1, B) <= Base(cs, e, B) || Base(cs, e + 1, B) <= Base(cs, d, B)
    ensures Blocks(cs, d + 1, B) <= Blocks(cs, e, B) || Blocks(cs, e + 1, B) <= Blocks(cs, d, B)
  {
    if d < e {
      Monotone(cs, d + 1, e, B);
    } else {
      Monotone(cs, e + 1, d, B);
    }
  }

  /** The expert whose bucket holds a position. */
  function ExpertAt(cs: seq<nat>, p: nat, B: nat): (e: nat)
    requires B > 0 && p < Base(cs, |cs|, B)
    ensures e < |cs| && Base(cs, e, B) <= p < Base(cs, e + 1, B)
  {
    ExpertUpTo(cs, |cs|, p, B)
  }

  function ExpertUpTo(cs: seq<nat>, n: nat, p: nat, B: nat): (e: nat)
    requires B > 0 && n <= |cs| && p < Base(cs, n, B)
    ensures e < n && Base(cs, e, B) <= p < Base(cs, e + 1, B)
  {
    if Base(cs, n - 1, B) <= p then n - 1 else ExpertUpTo(cs, n - 1, p, B)
  }

  lemma {:induction false} PairsInMembers(ids: seq<nat>, e: nat)
    ensures forall i: nat :: i in PairsOf(ids, e) <==> i in Members(ids, e)
  {
    if ids != [] {
      var n := |ids| - 1;
      PairsInMembers(ids[..n], e);
      assert Members(ids, e) == Members(ids[..n], e) + if ids[n] == e then {n} else {};
    }
  }

  lemma {:induction false} PairsAscend(ids: seq<nat>, e: nat)
    ensures forall k | 0 <= k < |PairsOf(ids, e)| :: PairsOf(ids, e)[k] < |ids|
    ensures forall a, b | 0 <= a < b < |PairsOf(ids, e)| :: PairsOf(ids, e)[a] < PairsOf(ids, e)[b]
  {
    if ids != [] {
      PairsAscend(ids[..|ids| - 1], e);
    }
  }

  lemma PairsAreMembers(ids: seq<nat>, e: nat)
    ensures forall i: nat :: i in PairsOf(ids, e) <==> i in Members(ids, e)
    ensures Distinct(PairsOf(ids, e)) && |PairsOf(ids, e)| == |Members(ids, e)|
  {
    PairsInMembers(ids, e);
    PairsAscend(ids, e);
    DistinctCard(PairsOf(ids, e));
    assert Elements(PairsOf(ids, e)) == Members(ids, e);
  }

  lemma {:induction false} CountsSum(ids: seq<nat>, E: nat)
    requires Routed(ids, E)
    ensures Sum(Counts(ids, E)) == |ids|
  {
    if ids == [] {
      NoneCounted(E);
    } else {
      var n := |ids| - 1;
      CountsSum(ids[..n], E);
      OneMore(ids, E);
    }
  }

  lemma {:induction false} NoneCounted(E: nat)
    ensures Sum(Counts([], E)) == 0
  {
    if E > 0 {
      NoneCounted(E - 1);
      assert Counts([], E)[..E - 1] == Counts([], E - 1);
    }
  }

  lemma {:induction false} OneMore(ids: seq<nat>, E: nat)
    requires ids != []
    ensures Sum(Counts(ids, E)) == Sum(Counts(ids[..|ids| - 1], E)) + if ids[|ids| - 1] < E then 1 else 0
  {
    hide PairsOf, Counts, Sum;
    NothingSummed(ids);
    NothingSummed(ids[..|ids| - 1]);
    if E > 0 {
      OneMore(ids, E - 1);
      CountsGrow(ids, E - 1);
      CountsGrow(ids[..|ids| - 1], E - 1);
      assert |PairsOf(ids, E - 1)| == |PairsOf(ids[..|ids| - 1], E - 1)| + if ids[|ids| - 1] == E - 1 then 1 else 0 by {
        OnePair(ids, E - 1);
      }
    }
  }

  lemma NothingSummed(ids: seq<nat>)
    ensures Sum(Counts(ids, 0)) == 0
  {
  }

  lemma OnePair(ids: seq<nat>, e: nat)
    requires ids != []
    ensures |PairsOf(ids, e)| == |PairsOf(ids[..|ids| - 1], e)| + if ids[|ids| - 1] == e then 1 else 0
  {
  }

  lemma CountsGrow(ids: seq<nat>, E: nat)
    ensures Sum(Counts(ids, E + 1)) == Sum(Counts(ids, E)) + |PairsOf(ids, E)|
  {
    assert Counts(ids, E + 1)[..E] == Counts(ids, E);
  }

  lemma {:induction false} BaseBound(cs: seq<nat>, e: nat, B: nat)
    requires B > 0 && e <= |cs|
    ensures Sum(cs[..e]) <= Base(cs, e, B) <= Sum(cs[..e]) + Slack(e, B)
  {
    if e > 0 {
      BaseBound(cs, e - 1, B);
      assert cs[..e][..e - 1] == cs[..e - 1];
      assert e * (B - 1) == (e - 1) * (B - 1) + (B - 1);
    }
  }

  // ---- What an alignment is ------------------------------------------------------------------

  /** Cells of the bucket of `e` past its pairs hold the sentinel `|ids|`. */
  predicate PaddingOk(cs: seq<nat>, sorted: seq<nat>, e: nat, B: nat, sentinel: nat)
    requires B > 0 && e < |cs| && Base(cs, e + 1, B) <= |sorted|
  {
    forall p | Base(cs, e, B) + cs[e] <= p < Base(cs, e + 1, B) :: sorted[p] == sentinel
  }

  /** The first cells of the bucket of `e` hold exactly its pairs, in any order. */
  predicate PairsOk(ids: seq<nat>, cs: seq<nat>, sorted: seq<nat>, e: nat, B: nat)
    requires B > 0 && e < |cs| && Base(cs, e + 1, B) <= |sorted|
  {
    multiset(sorted[Base(cs, e, B)..Base(cs, e, B) + cs[e]]) == multiset(PairsOf(ids, e))
  }

  predicate ExpertsOk(cs: seq<nat>, experts: seq<nat>, e: nat, B: nat)
    requires B > 0 && e < |cs| && Blocks(cs, e + 1, B) <= |experts|
  {
    forall b | Blocks(cs, e, B) <= b < Blocks(cs, e + 1, B) :: experts[b] == e
  }

  predicate Fits(cs: seq<nat>, B: nat, nSorted: nat, nExperts: nat)
    requires B > 0
  {
    forall e: nat | e <= |cs| :: Base(cs, e, B) <= nSorted && Blocks(cs, e, B) <= nExperts
  }

  predicate IsAlignment(ids: seq<nat>, E: nat, B: nat, sorted: seq<nat>, experts: seq<nat>, total: nat)
    requires B > 0
  {
    var cs := Counts(ids, E);
    && total == Base(cs, E, B)
    && Fits(cs, B, |sorted|, |experts|)
    && (forall e: nat | e < E :: PairsOk(ids, cs, sorted, e, B))
    && (forall e: nat | e < E :: PaddingOk(cs, sorted, e, B, |ids|))
    && (forall e: nat | e < E :: ExpertsOk(cs, experts, e, B))
  }

  lemma FitsWhole(cs: seq<nat>, B: nat, nSorted: nat, nExperts: nat)
    requires B > 0 && Base(cs, |cs|, B) <= nSorted && Blocks(cs, |cs|, B) <= nExperts
    ensures Fits(cs, B, nSorted, nExperts)
  {
    forall e: nat | e <= |cs|
      ensures Base(cs, e, B) <= nSorted && Blocks(cs, e, B) <= nExperts
    {
      Monotone(cs, e, |cs|, B);
    }
  }

  lemma {:induction false} DistinctMultiset<T>(s: seq<T>)
    requires Distinct(s)
    ensures forall x :: multiset(s)[x] == if x in s then 1 else 0
  {
    if s != [] {
      var n := |s| - 1;
      DistinctMultiset(s[..n]);
      assert s == s[..n] + [s[n]];
      assert s[n] !in s[..n];
    }
  }

  /** As many distinct pairs of `e` as there are at all: every one of them, once. */
  lemma DistinctPairsAreAll(ids: seq<nat>, e: nat, s: seq<nat>)
    requires Distinct(s) && |s| == |PairsOf(ids, e)|
    requires forall k | 0 <= k < |s| :: s[k] in Members(ids, e)
    ensures multiset(s) == multiset(PairsOf(ids, e))
  {
    PairsAreMembers(ids, e);
    DistinctCard(s);
    SubsetCard(Elements(s), Members(ids, e));
    assert forall x :: x in Elements(s) <==> x in Members(ids, e);
    DistinctMultiset(s);
    DistinctMultiset(PairsOf(ids, e));
  }

  // ---- What every alignment guarantees -------------------------------------------------------

  lemma BucketFacts(ids: seq<nat>, E: nat, B: nat, sorted: seq<nat>, experts: seq<nat>, total: nat, e: nat)
    requires B > 0 && IsAlignment(ids, E, B, sorted, experts, total) && e < E
    ensures var cs := Counts(ids, E);
            && Base(cs, e + 1, B) <= total <= |sorted| && Blocks(cs, e + 1, B) <= |experts|
            && cs[e] == |PairsOf(ids, e)|
            && PairsOk(ids, cs, sorted, e, B) && PaddingOk(cs, sorted, e, B, |ids|) && ExpertsOk(cs, experts, e, B)
  {
    var cs := Counts(ids, E);
    assert Base(cs, e + 1, B) <= |sorted| && Blocks(cs, e + 1, B) <= |experts| && Base(cs, E, B) <= |sorted|;
    Monotone(cs, e + 1, E, B);
  }

  lemma TotalIs(ids: seq<nat>, E: nat, B: nat, sorted: seq<nat>, experts: seq<nat>, total: nat)
    requires B > 0 && IsAlignment(ids, E, B, sorted, experts, total)
    ensures total == Base(Counts(ids, E), E, B) <= |sorted| && Blocks(Counts(ids, E), E, B) <= |experts|
  {
    var cs := Counts(ids, E);
    assert Base(cs, E, B) <= |sorted| && Blocks(cs, E, B) <= |experts|;
  }

  lemma BaseGrows(cs: seq<nat>, e: nat, B: nat)
    requires B > 0 && e < |cs|
    ensures Base(cs, e, B) <= Base(cs, e + 1, B)
  {
  }

  lemma CursorRoom(cs: seq<nat>, e: nat, B: nat)
    requires B > 0 && e < |cs|
    ensures Base(cs, e, B) + cs[e] <= Base(cs, e + 1, B)
  {
  }

  lemma CellOfPairs(ids: seq<nat>, E: nat, B: nat, sorted: seq<nat>, experts: seq<nat>, total: nat, e: nat, p: nat)
    requires B > 0 && IsAlignment(ids, E, B, sorted, experts, total)
    requires e < E && Base(Counts(ids, E), e, B) <= p < Base(Counts(ids, E), e, B) + |PairsOf(ids, e)|
    ensures p < |sorted| && sorted[p] < |ids| && ids[sorted[p]] == e
  {
    hide IsAlignment, PaddingOk, ExpertsOk, Base, PairsOf;
    var cs := Counts(ids, E);
    BucketFacts(ids, E, B, sorted, experts, total, e);
    CursorRoom(cs, e, B);
    var lo := Base(cs, e, B);
    var run := sorted[lo..lo + cs[e]];
    assert run[p - lo] == sorted[p];
    assert sorted[p] in multiset(run);
    PairsAreMembers(ids, e);
    assert sorted[p] in PairsOf(ids, e);
  }

  /** Every block is pure: a real entry's pair was routed to the expert named for its block. */
  lemma BlocksArePure(ids: seq<nat>, E: nat, B: nat, sorted: seq<nat>, experts: seq<nat>, total: nat, p: nat)
    requires B > 0 && IsAlignment(ids, E, B, sorted, experts, total) && p < total
    ensures p < |sorted| && p / B < |experts|
    ensures experts[p / B] < E && experts[p / B] == ExpertAt(Counts(ids, E), p, B)
    ensures sorted[p] == |ids| || (sorted[p] < |ids| && ids[sorted[p]] == experts[p / B])
  {
    hide PairsOk, Base, PairsOf, ExpertAt;
    var cs := Counts(ids, E);
    var e := ExpertAt(cs, p, B);
    BucketFacts(ids, E, B, sorted, experts, total, e);
    BlockOf(cs, e, p, B);
    if p < Base(cs, e, B) + cs[e] {
      CellOfPairs(ids, E, B, sorted, experts, total, e, p);
    }
  }

  lemma BlockOf(cs: seq<nat>, e: nat, p: nat, B: nat)
    requires B > 0 && e < |cs| && Base(cs, e, B) <= p < Base(cs, e + 1, B)
    ensures Blocks(cs, e, B) <= p / B < Blocks(cs, e + 1, B)
  {
    BaseIsBlocks(cs, e, B);
    BaseIsBlocks(cs, e + 1, B);
    Between(Blocks(cs, e, B), Blocks(cs, e + 1, B), p, B);
  }

  lemma Between(lo: nat, hi: nat, p: nat, B: nat)
    requires B > 0 && lo * B <= p < hi * B
    ensures lo <= p / B < hi
  {
    var q := p / B;
    assert q * B <= p < q * B + B;
    assert (lo - q) * B == lo * B - q * B && (hi - q) * B == hi * B - q * B;
    MulAtLeast(lo - q, B);
    MulAtLeast(hi - q, B);
  }

  /** Every pair has a place among the real blocks. */
  lemma PairHasPlace(ids: seq<nat>, E: nat, B: nat, sorted: seq<nat>, experts: seq<nat>, total: nat, i: nat)
    returns (p: nat)
    requires B > 0 && IsAlignment(ids, E, B, sorted, experts, total) && Routed(ids, E) && i < |ids|
    ensures p < total <= |sorted| && sorted[p] == i
  {
    hide IsAlignment, PaddingOk, ExpertsOk, Base, PairsOf;
    var cs, e := Counts(ids, E), ids[i];
    BucketFacts(ids, E, B, sorted, experts, total, e);
    CursorRoom(cs, e, B);
    PairsAreMembers(ids, e);
    assert i in Members(ids, e);
    var lo := Base(cs, e, B);
    var run := sorted[lo..lo + cs[e]];
    assert i in multiset(PairsOf(ids, e)) && i in multiset(run);
    var k :| 0 <= k < |run| && run[k] == i;
    p := lo + k;
  }

  /** No pair has two places. */
  lemma PairHasOnePlace(ids: seq<nat>, E: nat, B: nat, sorted: seq<nat>, experts: seq<nat>, total: nat, p: nat, q: nat)
    requires B > 0 && IsAlignment(ids, E, B, sorted, experts, total)
    requires p < q < total <= |sorted| && sorted[p] < |ids|
    ensures sorted[p] != sorted[q]
  {
    hide IsAlignment, ExpertsOk, Base, PairsOf, ExpertAt;
    var cs := Counts(ids, E);
    TotalIs(ids, E, B, sorted, experts, total);
    BlocksArePure(ids, E, B, sorted, experts, total, p);
    BlocksArePure(ids, E, B, sorted, experts, total, q);
    var e := ExpertAt(cs, p, B);
    if ExpertAt(cs, q, B) == e {
      BucketFacts(ids, E, B, sorted, experts, total, e);
      CursorRoom(cs, e, B);
      var lo := Base(cs, e, B);
      var run := sorted[lo..lo + cs[e]];
      PairsAreMembers(ids, e);
      SameMultisetDistinct(run, PairsOf(ids, e));
      if q < lo + cs[e] {
        assert run[p - lo] != run[q - lo];
      }
    }
  }

  lemma SameMultisetDistinct<T>(s: seq<T>, r: seq<T>)
    requires multiset(s) == multiset(r) && Distinct(r)
    ensures Distinct(s)
  {
    DistinctMultiset(r);
    forall a, b | 0 <= a < b < |s|
      ensures s[a] != s[b]
    {
      assert s == s[..b] + s[b..];
      assert s[a] == s[..b][a] && s[b] == s[b..][0];
      assert multiset(s)[s[a]] == multiset(s[..b])[s[a]] + multiset(s[b..])[s[a]];
    }
  }

  /** The padded total covers every pair and never exceeds the buffer the host allocates. */
  lemma TotalFitsBuffer(ids: seq<nat>, E: nat, B: nat)
    requires B > 0 && Routed(ids, E)
    ensures |ids| <= Base(Counts(ids, E), E, B) <= |ids| + Slack(E, B)
    ensures Blocks(Counts(ids, E), E, B) <= CeilDiv(|ids| + Slack(E, B), B)
  {
    hide Slack, CeilDiv, Base, Blocks, Counts, Sum;
    var cs := Counts(ids, E);
    CountsSum(ids, E);
    BaseBound(cs, E, B);
    assert cs[..E] == cs;
    BaseIsBlocks(cs, E, B);
    AtMostCeil(Blocks(cs, E, B), |ids| + Slack(E, B), B);
  }

  lemma AtMostCeil(q: nat, n: nat, B: nat)
    requires B > 0 && q * B <= n
    ensures q <= CeilDiv(n, B)
  {
    var r := (n + B - 1) / B;
    assert n + B - 1 < r * B + B;
    assert (q - r) * B == q * B - r * B;
    MulAtLeast(q - r, B);
  }

  predicate SameBucket(cs: seq<nat>, B: nat, s: seq<nat>, s': seq<nat>, e: nat)
    requires B > 0 && e < |cs|
  {
    var lo, hi := Base(cs, e, B), Base(cs, e + 1, B);
    hi <= |s| && hi <= |s'| && multiset(s[lo..hi]) == multiset(s'[lo..hi])
  }

  /** Two alignments of the same routing agree on everything but the order inside a bucket. */
  lemma AlignmentsAgree(ids: seq<nat>, E: nat, B: nat, s: seq<nat>, x: seq<nat>, n: nat, s': seq<nat>, x': seq<nat>,
      n': nat)
    requires B > 0 && IsAlignment(ids, E, B, s, x, n) && IsAlignment(ids, E, B, s', x', n')
    ensures n == n' && n <= |s| && n <= |s'| && n / B <= |x| && n / B <= |x'|
    ensures x[..n / B] == x'[..n / B]
    ensures multiset(s[..n]) == multiset(s'[..n])
    ensures forall e: nat | e < E :: SameBucket(Counts(ids, E), B, s, s', e)
  {
    hide IsAlignment, ExpertsOk, PairsOk, PaddingOk, PairsOf, Base, ExpertAt, SameBucket;
    var cs := Counts(ids, E);
    TotalIs(ids, E, B, s, x, n);
    TotalIs(ids, E, B, s', x', n');
    BaseIsBlocks(cs, E, B);
    forall b: nat | b < n / B
      ensures x[b] == x'[b]
    {
      SameExpert(ids, E, B, s, x, n, s', x', b);
    }
    BucketsAgree(ids, E, B, s, x, n, s', x', E);
    forall e: nat | e < E
      ensures SameBucket(cs, B, s, s', e)
    {
      BucketAgrees(ids, E, B, s, x, n, s', x', e);
    }
  }

  lemma SameExpert(ids: seq<nat>, E: nat, B: nat, s: seq<nat>, x: seq<nat>, n: nat, s': seq<nat>, x': seq<nat>, b: nat)
    requires B > 0 && IsAlignment(ids, E, B, s, x, n) && IsAlignment(ids, E, B, s', x', n) && b < n / B
    ensures b < |x| && b < |x'| && x[b] == x'[b]
  {
    hide IsAlignment, Base, ExpertAt;
    TotalIs(ids, E, B, s, x, n);
    BaseIsBlocks(Counts(ids, E), E, B);
    InBlock(b, n / B, B);
    DivModUnique(b * B, B, b, 0);
    BlocksArePure(ids, E, B, s, x, n, b * B);
    BlocksArePure(ids, E, B, s', x', n, b * B);
  }

  lemma InBlock(b: nat, k: nat, B: nat)
    requires B > 0 && b < k
    ensures b * B < k * B
  {
  }

  lemma BucketAgrees(ids: seq<nat>, E: nat, B: nat, s: seq<nat>, x: seq<nat>, n: nat, s': seq<nat>, x': seq<nat>,
      e: nat)
    requires B > 0 && IsAlignment(ids, E, B, s, x, n) && IsAlignment(ids, E, B, s', x', n) && e < E
    ensures SameBucket(Counts(ids, E), B, s, s', e)
  {
    hide IsAlignment, ExpertsOk, Base, PairsOf;
    var cs := Counts(ids, E);
    var lo, mid, hi := Base(cs, e, B), Base(cs, e, B) + cs[e], Base(cs, e + 1, B);
    BucketFacts(ids, E, B, s, x, n, e);
    BucketFacts(ids, E, B, s', x', n, e);
    CursorRoom(cs, e, B);
    assert s[mid..hi] == s'[mid..hi];
    assert s[lo..hi] == s[lo..mid] + s[mid..hi] && s'[lo..hi] == s'[lo..mid] + s'[mid..hi];
  }

  lemma {:induction false} BucketsAgree(ids: seq<nat>, E: nat, B: nat, s: seq<nat>, x: seq<nat>, n: nat,
      s': seq<nat>, x': seq<nat>, e: nat)
    requires B > 0 && IsAlignment(ids, E, B, s, x, n) && IsAlignment(ids, E, B, s', x', n) && e <= E
    ensures Base(Counts(ids, E), e, B) <= |s| && Base(Counts(ids, E), e, B) <= |s'|
    ensures multiset(s[..Base(Counts(ids, E), e, B)]) == multiset(s'[..Base(Counts(ids, E), e, B)])
    decreases e
  {
    hide IsAlignment, ExpertsOk, PairsOk, PaddingOk, PairsOf;
    var cs := Counts(ids, E);
    if e > 0 {
      BucketsAgree(ids, E, B, s, x, n, s', x', e - 1);
      BucketAgrees(ids, E, B, s, x, n, s', x', e - 1);
      BaseGrows(cs, e - 1, B);
      var lo, hi := Base(cs, e - 1, B), Base(cs, e, B);
      assert s[..hi] == s[..lo] + s[lo..hi] && s'[..hi] == s'[..lo] + s'[lo..hi];
    }
  }

  // ---- The sequential reference --------------------------------------------------------------

  function SortedPairs(ids: seq<nat>, E: nat): seq<nat> {
    if E == 0 then [] else SortedPairs(ids, E - 1) + PairsOf(ids, E - 1)
  }

  /** Sorted by expert, equal experts in their original order. */
  predicate SortedBefore(ids: seq<nat>, i: nat, j: nat) {
    i < |ids| && j < |ids| && (ids[i] < ids[j] || (ids[i] == ids[j] && i < j))
  }

  /** `SortedPairs` is the stable sort of the pairs by expert. */
  lemma {:induction false} SortedPairsIsStable(ids: seq<nat>, E: nat)
    ensures forall i: nat :: i in SortedPairs(ids, E) <==> i < |ids| && ids[i] < E
    ensures forall a, b | 0 <= a < b < |SortedPairs(ids, E)| ::
        SortedBefore(ids, SortedPairs(ids, E)[a], SortedPairs(ids, E)[b])
  {
    hide PairsOf;
    if E > 0 {
      SortedPairsIsStable(ids, E - 1);
      PairsAreMembers(ids, E - 1);
      PairsAscend(ids, E - 1);
      var s, r := SortedPairs(ids, E - 1), PairsOf(ids, E - 1);
      assert SortedPairs(ids, E) == s + r;
      forall a, b | 0 <= a < b < |s + r|
        ensures SortedBefore(ids, (s + r)[a], (s + r)[b])
      {
        assert (s + r)[b] == if b < |s| then s[b] else r[b - |s|];
        assert b < |s| ==> SortedBefore(ids, s[a], s[b]);
        assert a < |s| ==> s[a] in s;
        assert b >= |s| ==> r[b - |s|] in r;
        assert a >= |s| ==> r[a - |s|] in r;
      }
    }
  }

  lemma {:induction false} SortedPairsSplit(ids: seq<nat>, e: nat, E: nat)
    requires e < E
    ensures |SortedPairs(ids, e)| + |PairsOf(ids, e)| <= |SortedPairs(ids, E)|
    ensures SortedPairs(ids, E)[|SortedPairs(ids, e)|..|SortedPairs(ids, e)| + |PairsOf(ids, e)|] == PairsOf(ids, e)
    decreases E
  {
    if e < E - 1 {
      SortedPairsSplit(ids, e, E - 1);
      var n, k := |SortedPairs(ids, e)|, |PairsOf(ids, e)|;
      assert SortedPairs(ids, E)[n..n + k] == SortedPairs(ids, E - 1)[n..n + k];
    }
  }

  /** The bucket of `e` starts with its pairs in ascending order. */
  predicate InOrder(ids: seq<nat>, cs: seq<nat>, sorted: seq<nat>, e: nat, B: nat)
    requires B > 0 && e < |cs|
  {
    Base(cs, e, B) + cs[e] <= |sorted| && sorted[Base(cs, e, B)..Base(cs, e, B) + cs[e]] == PairsOf(ids, e)
  }

  predicate BucketDone(ids: seq<nat>, cs: seq<nat>, sorted: seq<nat>, experts: seq<nat>, B: nat, e: nat)
    requires B > 0 && e < |cs|
  {
    && InOrder(ids, cs, sorted, e, B)
    && Base(cs, e + 1, B) <= |sorted| && PaddingOk(cs, sorted, e, B, |ids|)
    && Blocks(cs, e + 1, B) <= |experts| && ExpertsOk(cs, experts, e, B)
  }

  predicate BucketsTo(ids: seq<nat>, cs: seq<nat>, sorted: seq<nat>, experts: seq<nat>, B: nat, n: nat)
    requires B > 0
  {
    forall e: nat | e < n && e < |cs| :: BucketDone(ids, cs, sorted, experts, B, e)
  }

  lemma AllInOrder(ids: seq<nat>, E: nat, B: nat, sorted: seq<nat>, experts: seq<nat>, total: nat)
    requires B > 0 && total == Base(Counts(ids, E), E, B) && Fits(Counts(ids, E), B, |sorted|, |experts|)
    requires BucketsTo(ids, Counts(ids, E), sorted, experts, B, E)
    ensures IsAlignment(ids, E, B, sorted, experts, total)
    ensures forall e: nat | e < E :: InOrder(ids, Counts(ids, E), sorted, e, B)
  {
    hide PaddingOk, ExpertsOk, Base, Blocks, Counts, PairsOf;
    var cs := Counts(ids, E);
    forall e: nat | e < E
      ensures Base(cs, e + 1, B) <= |sorted| && Blocks(cs, e + 1, B) <= |experts|
      ensures InOrder(ids, cs, sorted, e, B) && PairsOk(ids, cs, sorted, e, B)
      ensures PaddingOk(cs, sorted, e, B, |ids|) && ExpertsOk(cs, experts, e, B)
    {
      assert BucketDone(ids, cs, sorted, experts, B, e);
    }
  }

  lemma NewBucket(ids: seq<nat>, cs: seq<nat>, B: nat, s: seq<nat>, s': seq<nat>, x: seq<nat>, x': seq<nat>, e: nat)
    requires B > 0 && e < |cs| && Base(cs, e + 1, B) <= |s'| == |s| && Blocks(cs, e + 1, B) <= |x'| == |x|
    requires forall p | 0 <= p < Base(cs, e, B) :: s'[p] == s[p]
    requires forall b | 0 <= b < Blocks(cs, e, B) :: x'[b] == x[b]
    requires BucketsTo(ids, cs, s, x, B, e)
    requires s'[Base(cs, e, B)..Base(cs, e, B) + cs[e]] == PairsOf(ids, e)
    requires forall p | Base(cs, e, B) + cs[e] <= p < |s'| :: s'[p] == |ids|
    requires forall b | Blocks(cs, e, B) <= b < Blocks(cs, e, B) + NumBlocks(cs[e], B) :: x'[b] == e
    ensures BucketsTo(ids, cs, s', x', B, e + 1)
  {
    hide PairsOf, BucketDone, NumBlocks, Padded;
    NewBucketDone(ids, cs, B, s', x', e);
    forall d: nat | d < e
      ensures BucketDone(ids, cs, s', x', B, d)
    {
      OldBucketDone(ids, cs, B, s, s', x, x', d, e);
    }
  }

  lemma NewBucketDone(ids: seq<nat>, cs: seq<nat>, B: nat, s: seq<nat>, x: seq<nat>, e: nat)
    requires B > 0 && e < |cs| && Base(cs, e + 1, B) <= |s| && Blocks(cs, e + 1, B) <= |x|
    requires s[Base(cs, e, B)..Base(cs, e, B) + cs[e]] == PairsOf(ids, e)
    requires forall p | Base(cs, e, B) + cs[e] <= p < |s| :: s[p] == |ids|
    requires forall b | Blocks(cs, e, B) <= b < Blocks(cs, e, B) + NumBlocks(cs[e], B) :: x[b] == e
    ensures BucketDone(ids, cs, s, x, B, e)
  {
    hide PairsOf;
  }

  lemma OldBucketDone(
    ids: seq<nat>, cs: seq<nat>, B: nat, s: seq<nat>, s': seq<nat>, x: seq<nat>, x': seq<nat>, d: nat, e: nat)
    requires B > 0 && d < e < |cs| && Base(cs, e, B) <= |s'| == |s| && Blocks(cs, e, B) <= |x'| == |x|
    requires forall p | 0 <= p < Base(cs, e, B) :: s'[p] == s[p]
    requires forall b | 0 <= b < Blocks(cs, e, B) :: x'[b] == x[b]
    requires BucketDone(ids, cs, s, x, B, d)
    ensures BucketDone(ids, cs, s', x', B, d)
  {
    hide PairsOf;
    Monotone(cs, d + 1, e, B);
    var lo := Base(cs, d, B);
    assert s'[lo..lo + cs[d]] == s[lo..lo + cs[d]];
  }

  method AlignReference(ids: seq<nat>, E: nat, B: nat) returns (sorted: array<nat>, experts: array<nat>, total: nat)
    requires B > 0 && Routed(ids, E)
    ensures IsAlignment(ids, E, B, sorted[..], experts[..], total)
    ensures sorted.Length == total && experts.Length == total / B
    ensures forall e: nat | e < E :: InOrder(ids, Counts(ids, E), sorted[..], e, B)
  {
    hide IsAlignment, PairsOf, NumBlocks, Padded, InOrder, BucketDone, PaddingOk, ExpertsOk;
    var order := SortedPairs(ids, E);
    var cs := Counts(ids, E);
    total := Base(cs, E, B);
    BaseIsBlocks(cs, E, B);
    FitsWhole(cs, B, total, total / B);
    sorted := new nat[total](_ => |ids|);
    experts := new nat[total / B];
    var src, dst, block := 0, 0, 0;
    assert BucketsTo(ids, cs, sorted[..], experts[..], B, 0);
    for e := 0 to E
      invariant src == |SortedPairs(ids, e)| && dst == Base(cs, e, B) && block == Blocks(cs, e, B)
      invariant BucketsTo(ids, cs, sorted[..], experts[..], B, e)
      invariant forall p | dst <= p < total :: sorted[p] == |ids|
    {
      SortedPairsSplit(ids, e, E);
      assert Base(cs, e + 1, B) <= total && Blocks(cs, e + 1, B) <= total / B;
      var n, nb := cs[e], NumBlocks(cs[e], B);
      label Before:
      forall k | 0 <= k < n {
        sorted[dst + k] := order[src + k];
      }
      forall k | 0 <= k < nb {
        experts[block + k] := e;
      }
      assert sorted[..][dst..dst + n] == order[src..src + n];
      NewBucket(ids, cs, B, old@Before(sorted[..]), sorted[..], old@Before(experts[..]), experts[..], e);
      src, dst, block := src + n, dst + Padded(n, B), block + nb;
    }
    AllInOrder(ids, E, B, sorted[..], experts[..], total);
  }

  // ---- The four kernels ----------------------------------------------------------------------

  function Lanes(n: nat): (r: set<nat>)
    ensures forall i: nat :: i in r <==> i < n
  {
    if n == 0 then {} else Lanes(n - 1) + {n - 1}
  }

  /** Kernel A: one atomic add per lane, in any order. */
  method CountTokens(ids: seq<nat>, counts: array<nat>)
    requires Routed(ids, counts.Length)
    requires forall e | 0 <= e < counts.Length :: counts[e] == 0
    modifies counts
    ensures counts[..] == Counts(ids, counts.Length)
  {
    hide Members, PairsOf;
    var todo: set<nat> := Lanes(|ids|);
    forall e | 0 <= e < counts.Length
      ensures |Members(ids, e) - todo| == 0
    {
      NoneLeft(ids, e, todo);
    }
    while todo != {}
      invariant forall i | i in todo :: i < |ids|
      invariant forall e | 0 <= e < counts.Length :: counts[e] == |Members(ids, e) - todo|
      decreases |todo|
    {
      var i :| i in todo;
      forall e | 0 <= e < counts.Length
        ensures |Members(ids, e) - (todo - {i})| == |Members(ids, e) - todo| + if e == ids[i] then 1 else 0
      {
        TakeOne(ids, e, todo, i);
      }
      counts[ids[i]] := counts[ids[i]] + 1;
      todo := todo - {i};
    }
    forall e | 0 <= e < counts.Length
      ensures counts[e] == |PairsOf(ids, e)|
    {
      PairsAreMembers(ids, e);
      assert Members(ids, e) - todo == Members(ids, e);
    }
  }

  lemma NoneLeft(ids: seq<nat>, e: nat, todo: set<nat>)
    requires forall i: nat | i < |ids| :: i in todo
    ensures Members(ids, e) - todo == {}
  {
  }

  lemma TakeOne(ids: seq<nat>, e: nat, todo: set<nat>, i: nat)
    requires i in todo && i < |ids|
    ensures |Members(ids, e) - (todo - {i})| == |Members(ids, e) - todo| + if e == ids[i] then 1 else 0
  {
    if e == ids[i] {
      assert Members(ids, e) - (todo - {i}) == (Members(ids, e) - todo) + {i};
    } else {
      assert Members(ids, e) - (todo - {i}) == Members(ids, e) - todo;
    }
  }

  /** Kernel B: exclusive prefix sums of the padded counts, which also start the scatter cursors. */
  method Meta(counts: array<nat>, base: array<nat>, counter: array<nat>, padded: array<nat>, B: nat)
    returns (total: nat)
    requires B > 0 && counts.Length == base.Length == counter.Length == padded.Length
    requires counts != base && counts != counter && counts != padded
    requires base != counter && base != padded && counter != padded
    modifies base, counter, padded
    ensures total == Base(counts[..], counts.Length, B)
    ensures MetaTo(counts[..], B, base[..], counter[..], padded[..], counts.Length)
  {
    hide Padded, NumBlocks, PadUp;
    ghost var cs := counts[..];
    total := 0;
    for e := 0 to counts.Length
      invariant total == Base(cs, e, B)
      invariant MetaTo(cs, B, base[..], counter[..], padded[..], e)
    {
      var inclusive := MetaLane(cs, e, counts[e], B, total, base, counter, padded);
      total := inclusive;
    }
  }

  predicate MetaTo(cs: seq<nat>, B: nat, base: seq<nat>, counter: seq<nat>, padded: seq<nat>, n: nat)
    requires B > 0
  {
    && n <= |cs| == |base| == |counter| == |padded|
    && forall e: nat | e < n ::
         base[e] == Base(cs, e, B) && counter[e] == Base(cs, e, B) && padded[e] == Padded(cs[e], B)
  }

  method MetaLane(
    ghost cs: seq<nat>, e: nat, c: nat, B: nat, total: nat, base: array<nat>, counter: array<nat>, padded: array<nat>)
    returns (inclusive: nat)
    requires B > 0 && e < |cs| && c == cs[e] && total == Base(cs, e, B)
    requires base != counter && base != padded && counter != padded
    requires MetaTo(cs, B, base[..], counter[..], padded[..], e)
    modifies base, counter, padded
    ensures inclusive == Base(cs, e + 1, B)
    ensures MetaTo(cs, B, base[..], counter[..], padded[..], e + 1)
  {
    hide Padded, NumBlocks, PadUp;
    PaddedIsCeil(c, B);
    var p := PadUp(c, B);
    inclusive := total + p;
    base[e], counter[e], padded[e] := inclusive - p, inclusive - p, p;
  }

  /** One program of kernel C: a chunk of an expert's block entries and, in chunk 0, its padding. */
  method FillProgram(
    e: nat, chunk: nat, CHUNK: nat, cs: seq<nat>, B: nat, sentinel: nat,
    baseE: nat, padE: nat, experts: array<nat>, sorted: array<nat>)
    requires B > 0 && CHUNK > 0 && e < |cs| && experts != sorted
    requires baseE == Base(cs, e, B) && padE == Padded(cs[e], B)
    requires Fits(cs, B, sorted.Length, experts.Length)
    modifies experts, sorted
    ensures Blocks(cs, e + 1, B) <= experts.Length && Base(cs, e + 1, B) <= sorted.Length
    ensures Filled(cs, experts[..], e, chunk, CHUNK, B)
    ensures forall b | 0 <= b < experts.Length ::
              experts[b] == old(experts[b]) || (Blocks(cs, e, B) <= b < Blocks(cs, e + 1, B) && experts[b] == e)
    ensures chunk == 0 ==> PaddingOk(cs, sorted[..], e, B, sentinel)
    ensures forall p | 0 <= p < sorted.Length ::
              sorted[p] == old(sorted[p]) || (Base(cs, e, B) + cs[e] <= p < Base(cs, e + 1, B) && sorted[p] == sentinel)
  {
    BaseIsBlocks(cs, e, B);
    assert Base(cs, e + 1, B) <= sorted.Length && Blocks(cs, e + 1, B) <= experts.Length;
    PaddedIsCeil(cs[e], B);
    DivModUnique(padE, B, NumBlocks(cs[e], B), 0);
    var nb, start := padE / B, baseE / B;
    ChunkStart(chunk, CHUNK);
    forall lane | 0 <= lane < CHUNK && chunk * CHUNK + lane < nb {
      experts[start + (chunk * CHUNK + lane)] := e;
    }
    forall j: nat | InChunk(j, chunk, CHUNK) && j < nb
      ensures experts[start + j] == e
    {
      var lane := j - chunk * CHUNK;
      assert 0 <= lane < CHUNK && chunk * CHUNK + lane == j;
    }
    assert start == Blocks(cs, e, B);
    if chunk == 0 {
      forall lane | 0 <= lane < B && lane < padE - cs[e] {
        sorted[baseE + cs[e] + lane] := sentinel;
      }
      forall p | Base(cs, e, B) + cs[e] <= p < Base(cs, e + 1, B)
        ensures sorted[p] == sentinel
      {
        var lane := p - (baseE + cs[e]);
        assert 0 <= lane < B && lane < padE - cs[e] && baseE + cs[e] + lane == p;
      }
    }
  }

  predicate InChunk(j: nat, chunk: nat, CHUNK: nat) {
    chunk * CHUNK <= j < chunk * CHUNK + CHUNK
  }

  lemma ChunkStart(chunk: nat, CHUNK: nat)
    ensures chunk * CHUNK >= 0
  {
  }

  predicate Filled(cs: seq<nat>, experts: seq<nat>, e: nat, chunk: nat, CHUNK: nat, B: nat)
    requires B > 0 && e < |cs| && Blocks(cs, e + 1, B) <= |experts|
  {
    forall j: nat | InChunk(j, chunk, CHUNK) && j < NumBlocks(cs[e], B) :: experts[Blocks(cs, e, B) + j] == e
  }

  /** Kernel C: the programs of an `E` by `numChunks` grid, in any order. */
  method Fill(
    cs: seq<nat>, B: nat, sentinel: nat, CHUNK: nat, numChunks: nat,
    base: array<nat>, padded: array<nat>, experts: array<nat>, sorted: array<nat>)
    requires B > 0 && CHUNK > 0 && base.Length == padded.Length == |cs|
    requires experts != sorted && base != experts && base != sorted && padded != experts && padded != sorted
    requires forall e: nat | e < |cs| :: base[e] == Base(cs, e, B) && padded[e] == Padded(cs[e], B)
    requires Fits(cs, B, sorted.Length, experts.Length)
    requires forall e: nat | e < |cs| :: NumBlocks(cs[e], B) <= numChunks * CHUNK
    requires numChunks > 0
    modifies experts, sorted
    ensures AllFilled(cs, B, sentinel, experts[..], sorted[..])
    ensures forall b | Blocks(cs, |cs|, B) <= b < experts.Length :: experts[b] == old(experts[b])
  {
    hide *;
    var todo: set<(nat, nat)> := set e: nat, c: nat | e < |cs| && c < numChunks :: (e, c);
    FillStarts(cs, B, CHUNK, numChunks, sentinel, todo, experts[..], sorted[..]);
    while todo != {}
      invariant forall t | t in todo :: t.0 < |cs| && t.1 < numChunks
      invariant forall e: nat | e < |cs| :: base[e] == Base(cs, e, B) && padded[e] == Padded(cs[e], B)
      invariant Filling(cs, B, CHUNK, numChunks, sentinel, todo, experts[..], sorted[..])
      invariant forall b | Blocks(cs, |cs|, B) <= b < experts.Length :: experts[b] == old(experts[b])
      decreases |todo|
    {
      var t :| t in todo;
      label Before:
      FillProgram(t.0, t.1, CHUNK, cs, B, sentinel, base[t.0], padded[t.0], experts, sorted);
      FillStep(cs, B, CHUNK, numChunks, sentinel, todo, t, old@Before(experts[..]), experts[..], old@Before(sorted[..]),
          sorted[..]);
      Monotone(cs, t.0 + 1, |cs|, B);
      todo := todo - {t};
    }
    FillEnds(cs, B, CHUNK, numChunks, sentinel, experts[..], sorted[..]);
  }

  /** The programs outside `todo` have written their cells. */
  predicate Filling(
    cs: seq<nat>, B: nat, CHUNK: nat, numChunks: nat, sentinel: nat, todo: set<(nat, nat)>, experts: seq<nat>,
        sorted: seq<nat>)
    requires B > 0
  {
    && Fits(cs, B, |sorted|, |experts|)
    && (forall e: nat, c: nat | e < |cs| && c < numChunks && (e, c) !in todo :: Filled(cs, experts, e, c, CHUNK, B))
    && (forall e: nat | e < |cs| && (e, 0) !in todo :: PaddingOk(cs, sorted, e, B, sentinel))
  }

  lemma FillStarts(
    cs: seq<nat>, B: nat, CHUNK: nat, numChunks: nat, sentinel: nat, todo: set<(nat, nat)>, experts: seq<nat>,
        sorted: seq<nat>)
    requires B > 0 && numChunks > 0 && Fits(cs, B, |sorted|, |experts|)
    requires forall e: nat, c: nat | e < |cs| && c < numChunks :: (e, c) in todo
    ensures Filling(cs, B, CHUNK, numChunks, sentinel, todo, experts, sorted)
  {
  }

  lemma FillStep(
    cs: seq<nat>, B: nat, CHUNK: nat, numChunks: nat, sentinel: nat, todo: set<(nat, nat)>, t: (nat, nat),
    x: seq<nat>, x': seq<nat>, s: seq<nat>, s': seq<nat>)
    requires B > 0 && t.0 < |cs| && |x'| == |x| && |s'| == |s|
    requires Filling(cs, B, CHUNK, numChunks, sentinel, todo, x, s)
    requires Blocks(cs, t.0 + 1, B) <= |x'| && Filled(cs, x', t.0, t.1, CHUNK, B)
    requires forall b | 0 <= b < |x'| ::
               x'[b] == x[b] || (Blocks(cs, t.0, B) <= b < Blocks(cs, t.0 + 1, B) && x'[b] == t.0)
    requires Base(cs, t.0 + 1, B) <= |s'| && (t.1 == 0 ==> PaddingOk(cs, s', t.0, B, sentinel))
    requires forall p | 0 <= p < |s'| ::
               s'[p] == s[p] || (Base(cs, t.0, B) + cs[t.0] <= p < Base(cs, t.0 + 1, B) && s'[p] == sentinel)
    ensures Filling(cs, B, CHUNK, numChunks, sentinel, todo - {t}, x', s')
  {
    hide Filled, PaddingOk, Base, Blocks;
    assert forall e: nat | e <= |cs| :: Base(cs, e, B) <= |s'| && Blocks(cs, e, B) <= |x'|;
    KeepsFilled(cs, B, CHUNK, numChunks, t, todo, x, x');
    KeepsPadding(cs, B, sentinel, t, todo, s, s');
  }

  lemma FillEnds(
    cs: seq<nat>, B: nat, CHUNK: nat, numChunks: nat, sentinel: nat, experts: seq<nat>, sorted: seq<nat>)
    requires B > 0 && CHUNK > 0 && numChunks > 0 && Filling(cs, B, CHUNK, numChunks, sentinel, {}, experts, sorted)
    requires forall e: nat | e < |cs| :: NumBlocks(cs[e], B) <= numChunks * CHUNK
    ensures AllFilled(cs, B, sentinel, experts, sorted)
  {
    hide Filled, PaddingOk, Base, Blocks, NumBlocks, ExpertsOk;
    forall e: nat | e < |cs|
      ensures Blocks(cs, e + 1, B) <= |experts| && ExpertsOk(cs, experts, e, B)
      ensures Base(cs, e + 1, B) <= |sorted| && PaddingOk(cs, sorted, e, B, sentinel)
    {
      assert Blocks(cs, e + 1, B) <= |experts| && Base(cs, e + 1, B) <= |sorted|;
      ChunksCover(cs, B, CHUNK, numChunks, experts, e);
    }
  }

  predicate AllFilled(cs: seq<nat>, B: nat, sentinel: nat, experts: seq<nat>, sorted: seq<nat>)
    requires B > 0
  {
    forall e: nat | e < |cs| ::
      && Base(cs, e + 1, B) <= |sorted| && PaddingOk(cs, sorted, e, B, sentinel)
      && Blocks(cs, e + 1, B) <= |experts| && ExpertsOk(cs, experts, e, B)
  }

  lemma KeepsFilled(cs: seq<nat>, B: nat, CHUNK: nat, numChunks: nat, t: (nat, nat), todo: set<(nat, nat)>,
      was: seq<nat>, now: seq<nat>)
    requires B > 0 && t.0 < |cs| && |was| == |now|
    requires forall e: nat | e <= |cs| :: Blocks(cs, e, B) <= |now|
    requires forall e: nat, c: nat | e < |cs| && c < numChunks && (e, c) !in todo :: Filled(cs, was, e, c, CHUNK, B)
    requires Filled(cs, now, t.0, t.1, CHUNK, B)
    requires forall b | 0 <= b < |now| ::
               now[b] == was[b] || (Blocks(cs, t.0, B) <= b < Blocks(cs, t.0 + 1, B) && now[b] == t.0)
    ensures forall e: nat, c: nat | e < |cs| && c < numChunks && (e, c) !in todo - {t} ::
        Filled(cs, now, e, c, CHUNK, B)
  {
    forall e: nat, c: nat | e < |cs| && c < numChunks && (e, c) !in todo - {t}
      ensures Filled(cs, now, e, c, CHUNK, B)
    {
      if (e, c) != t {
        assert Filled(cs, was, e, c, CHUNK, B);
        if e != t.0 {
          BucketsApart(cs, e, t.0, B);
        }
      }
    }
  }

  lemma KeepsPadding(cs: seq<nat>, B: nat, sentinel: nat, t: (nat, nat), todo: set<(nat, nat)>, was: seq<nat>,
      now: seq<nat>)
    requires B > 0 && t.0 < |cs| && |was| == |now|
    requires forall e: nat | e <= |cs| :: Base(cs, e, B) <= |now|
    requires forall e: nat | e < |cs| && (e, 0) !in todo :: PaddingOk(cs, was, e, B, sentinel)
    requires t.1 == 0 ==> PaddingOk(cs, now, t.0, B, sentinel)
    requires forall p | 0 <= p < |now| :: now[p] == was[p] || now[p] == sentinel
    ensures forall e: nat | e < |cs| && (e, 0) !in todo - {t} :: PaddingOk(cs, now, e, B, sentinel)
  {
    forall e: nat | e < |cs| && (e, 0) !in todo - {t}
      ensures PaddingOk(cs, now, e, B, sentinel)
    {
      if (e, 0) != t {
        assert PaddingOk(cs, was, e, B, sentinel);
      }
    }
  }

  lemma ChunksCover(cs: seq<nat>, B: nat, CHUNK: nat, numChunks: nat, experts: seq<nat>, e: nat)
    requires B > 0 && CHUNK > 0 && e < |cs| && Blocks(cs, e + 1, B) <= |experts|
    requires NumBlocks(cs[e], B) <= numChunks * CHUNK
    requires forall c: nat | c < numChunks :: Filled(cs, experts, e, c, CHUNK, B)
    ensures ExpertsOk(cs, experts, e, B)
  {
    forall b | Blocks(cs, e, B) <= b < Blocks(cs, e + 1, B)
      ensures experts[b] == e
    {
      var j: nat := b - Blocks(cs, e, B);
      Between(0, numChunks, j, CHUNK);
      assert InChunk(j, j / CHUNK, CHUNK);
      assert Filled(cs, experts, e, j / CHUNK, CHUNK, B);
      assert experts[Blocks(cs, e, B) + j] == e;
    }
  }

  // ---- Kernel D: the atomic scatter ----------------------------------------------------------

  /** What holds between any two steps of the scatter.  Lanes in `todo` have not done their atomic
      add; the others hold the slot it returned.  `owner` is the inverse of `slot`. */
  ghost predicate Scattering(
    ids: seq<nat>, cs: seq<nat>, B: nat, todo: set<nat>, counter: seq<nat>, slot: map<nat, nat>, owner: map<nat, nat>)
    requires B > 0
  {
    && Routed(ids, |cs|) && |counter| == |cs|
    && (forall e: nat | e < |cs| :: CursorOk(ids, cs, B, todo, counter, e))
    && (forall i: nat | i < |ids| && i !in todo :: SlotOk(ids, cs, B, counter, slot, owner, i))
    && (forall e: nat, p: nat | e < |cs| && Base(cs, e, B) <= p < counter[e] :: OwnerOk(ids, todo, slot, owner, e, p))
  }

  ghost predicate CursorOk(ids: seq<nat>, cs: seq<nat>, B: nat, todo: set<nat>, counter: seq<nat>, e: nat)
    requires B > 0 && e < |cs| == |counter|
  {
    counter[e] == Base(cs, e, B) + |Members(ids, e) - todo|
  }

  ghost predicate SlotOk(
    ids: seq<nat>, cs: seq<nat>, B: nat, counter: seq<nat>, slot: map<nat, nat>, owner: map<nat, nat>, i: nat)
    requires B > 0 && i < |ids| && ids[i] < |cs| == |counter|
  {
    && i in slot && Base(cs, ids[i], B) <= slot[i] < counter[ids[i]]
    && slot[i] in owner && owner[slot[i]] == i
  }

  ghost predicate OwnerOk(ids: seq<nat>, todo: set<nat>, slot: map<nat, nat>, owner: map<nat, nat>, e: nat, p: nat) {
    && p in owner && owner[p] < |ids| && owner[p] !in todo && ids[owner[p]] == e
    && owner[p] in slot && slot[owner[p]] == p
  }

  lemma AddTakesSlot(
    ids: seq<nat>, cs: seq<nat>, B: nat, todo: set<nat>, counter: seq<nat>, slot: map<nat, nat>, owner: map<nat, nat>,
        i: nat)
    requires B > 0 && Scattering(ids, cs, B, todo, counter, slot, owner) && cs == Counts(ids, |cs|)
    requires i in todo && i < |ids|
    ensures var r := counter[ids[i]];
            && r < Base(cs, ids[i], B) + cs[ids[i]]
            && Scattering(ids, cs, B, todo - {i}, counter[ids[i] := r + 1], slot[i := r], owner[r := i])
  {
    hide Members, PairsOf, Counts, Base;
    var e := ids[i];
    var r := counter[e];
    assert CursorOk(ids, cs, B, todo, counter, e);
    RoomLeft(ids, e, todo, i);
    assert cs[e] == |PairsOf(ids, e)| by { CountAt(ids, cs, e); }
    var counter', slot', owner' := counter[e := r + 1], slot[i := r], owner[r := i];
    forall d: nat | d < |cs|
      ensures CursorOk(ids, cs, B, todo - {i}, counter', d)
    {
      assert CursorOk(ids, cs, B, todo, counter, d);
      TakeOne(ids, d, todo, i);
    }
    forall j: nat | j < |ids| && j !in todo - {i}
      ensures SlotOk(ids, cs, B, counter', slot', owner', j)
    {
      if j != i {
        assert SlotOk(ids, cs, B, counter, slot, owner, j);
        SlotTaken(ids, cs, B, todo, counter, slot, owner, i, j);
      }
    }
    forall d: nat, p: nat | d < |cs| && Base(cs, d, B) <= p < counter'[d]
      ensures OwnerOk(ids, todo - {i}, slot', owner', d, p)
    {
      if d == e && p == r {
      } else {
        assert OwnerOk(ids, todo, slot, owner, d, p);
        SlotTaken(ids, cs, B, todo, counter, slot, owner, i, owner[p]);
      }
    }
  }

  lemma CountAt(ids: seq<nat>, cs: seq<nat>, e: nat)
    requires e < |cs| && cs == Counts(ids, |cs|)
    ensures cs[e] == |PairsOf(ids, e)|
  {
  }

  lemma RoomLeft(ids: seq<nat>, e: nat, todo: set<nat>, i: nat)
    requires i in todo && i < |ids| && ids[i] == e
    ensures |Members(ids, e) - todo| < |PairsOf(ids, e)|
  {
    PairsAreMembers(ids, e);
    SubsetCard(Members(ids, e) - todo, Members(ids, e));
    assert i in Members(ids, e) && i !in Members(ids, e) - todo;
  }

  lemma CursorInBucket(ids: seq<nat>, cs: seq<nat>, B: nat, todo: set<nat>, counter: seq<nat>, e: nat)
    requires B > 0 && e < |cs| == |counter| && CursorOk(ids, cs, B, todo, counter, e) && cs == Counts(ids, |cs|)
    ensures Base(cs, e, B) <= counter[e] <= Base(cs, e, B) + cs[e] <= Base(cs, e + 1, B)
  {
    PairsAreMembers(ids, e);
    SubsetCard(Members(ids, e) - todo, Members(ids, e));
  }

  /** The slot an add returns is nobody else's. */
  lemma SlotTaken(
    ids: seq<nat>, cs: seq<nat>, B: nat, todo: set<nat>, counter: seq<nat>, slot: map<nat, nat>, owner: map<nat, nat>,
        i: nat, j: nat)
    requires B > 0 && Scattering(ids, cs, B, todo, counter, slot, owner) && cs == Counts(ids, |cs|)
    requires i in todo && i < |ids| && j < |ids| && j !in todo
    ensures j in slot && slot[j] != counter[ids[i]]
  {
    assert SlotOk(ids, cs, B, counter, slot, owner, j);
    var d, e := ids[j], ids[i];
    assert CursorOk(ids, cs, B, todo, counter, d) && CursorOk(ids, cs, B, todo, counter, e);
    if d != e {
      CursorInBucket(ids, cs, B, todo, counter, d);
      CursorInBucket(ids, cs, B, todo, counter, e);
      RoomLeft(ids, e, todo, i);
      BucketsApart(cs, d, e, B);
    }
  }

  predicate AllPairsOk(ids: seq<nat>, cs: seq<nat>, sorted: seq<nat>, B: nat)
    requires B > 0
  {
    forall e: nat | e < |cs| :: Base(cs, e + 1, B) <= |sorted| && PairsOk(ids, cs, sorted, e, B)
  }

  /** Kernel D: each lane adds to its expert's cursor and later stores itself at the slot it was
      given.  Every interleaving of the adds and the stores is a run of the loop. */
  method ScatterTokens(ids: seq<nat>, ghost cs: seq<nat>, B: nat, counter: array<nat>, sorted: array<nat>)
    requires B > 0 && Routed(ids, |cs|) && cs == Counts(ids, |cs|) && counter != sorted
    requires counter.Length == |cs| && Base(cs, |cs|, B) <= sorted.Length
    requires forall e: nat | e < |cs| :: counter[e] == Base(cs, e, B)
    modifies counter, sorted
    ensures AllPairsOk(ids, cs, sorted[..], B)
    ensures PaddingKept(cs, B, old(sorted[..]), sorted[..])
  {
    hide Scattering, Stored, PairsOk, Members, PairsOf, Counts, Base;
    var todo: set<nat> := Lanes(|ids|);
    var pending: set<nat> := {};
    var slot: map<nat, nat> := map[];
    ghost var owner: map<nat, nat> := map[];
    StartsScattering(ids, cs, B, todo, counter[..]);
    while todo != {} || pending != {}
      invariant forall i | i in todo || i in pending :: i < |ids|
      invariant pending !! todo
      invariant Scattering(ids, cs, B, todo, counter[..], slot, owner)
      invariant forall i: nat | i < |ids| && i !in todo && i !in pending :: Stored(slot, sorted[..], i)
      invariant PaddingKept(cs, B, old(sorted[..]), sorted[..])
      decreases |todo|, |pending|
    {
      var anAdd: bool := *;
      if todo != {} && (anAdd || pending == {}) {
        var i :| i in todo;
        AddTakesSlot(ids, cs, B, todo, counter[..], slot, owner, i);
        AddKeepsStored(ids, todo, pending, slot, sorted[..], i, counter[ids[i]]);
        var r := counter[ids[i]];
        counter[ids[i]] := r + 1;
        slot, owner, todo, pending := slot[i := r], owner[r := i], todo - {i}, pending + {i};
      } else {
        var i :| i in pending;
        StoreKeeps(ids, cs, B, todo, pending, counter[..], slot, owner, old(sorted[..]), sorted[..], i);
        sorted[slot[i]] := i;
        pending := pending - {i};
      }
    }
    forall e: nat | e < |cs|
      ensures Base(cs, e + 1, B) <= sorted.Length && PairsOk(ids, cs, sorted[..], e, B)
    {
      Monotone(cs, e + 1, |cs|, B);
      ScatterDone(ids, cs, B, counter[..], slot, owner, sorted[..], e);
    }
  }

  predicate Stored(slot: map<nat, nat>, sorted: seq<nat>, i: nat) {
    i in slot && slot[i] < |sorted| && sorted[slot[i]] == i
  }

  predicate PaddingSame(cs: seq<nat>, B: nat, was: seq<nat>, now: seq<nat>, e: nat)
    requires B > 0 && e < |cs| && |was| == |now|
  {
    forall p | Base(cs, e, B) + cs[e] <= p < Base(cs, e + 1, B) && p < |now| :: now[p] == was[p]
  }

  predicate PaddingKept(cs: seq<nat>, B: nat, was: seq<nat>, now: seq<nat>)
    requires B > 0
  {
    |was| == |now| && forall e: nat | e < |cs| :: PaddingSame(cs, B, was, now, e)
  }

  lemma StartsScattering(ids: seq<nat>, cs: seq<nat>, B: nat, todo: set<nat>, counter: seq<nat>)
    requires B > 0 && Routed(ids, |cs|) && |counter| == |cs|
    requires forall e: nat | e < |cs| :: counter[e] == Base(cs, e, B)
    requires forall i: nat | i < |ids| :: i in todo
    ensures Scattering(ids, cs, B, todo, counter, map[], map[])
  {
    forall e: nat | e < |cs|
      ensures CursorOk(ids, cs, B, todo, counter, e)
    {
      assert Members(ids, e) - todo == {};
    }
  }

  lemma AddKeepsStored(
    ids: seq<nat>, todo: set<nat>, pending: set<nat>, slot: map<nat, nat>, sorted: seq<nat>, i: nat, r: nat)
    requires forall j: nat | j < |ids| && j !in todo && j !in pending :: Stored(slot, sorted, j)
    ensures forall j: nat | j < |ids| && j !in todo - {i} && j !in pending + {i} :: Stored(slot[i := r], sorted, j)
  {
    forall j: nat | j < |ids| && j !in todo - {i} && j !in pending + {i}
      ensures Stored(slot[i := r], sorted, j)
    {
      assert Stored(slot, sorted, j);
    }
  }

  /** A store overwrites no other lane's store and no padding. */
  lemma StoreKeeps(
    ids: seq<nat>, cs: seq<nat>, B: nat, todo: set<nat>, pending: set<nat>, counter: seq<nat>,
    slot: map<nat, nat>, owner: map<nat, nat>, was: seq<nat>, sorted: seq<nat>, i: nat)
    requires B > 0 && Scattering(ids, cs, B, todo, counter, slot, owner) && cs == Counts(ids, |cs|)
    requires i in pending && i !in todo && i < |ids| && Base(cs, |cs|, B) <= |sorted|
    requires forall j: nat | j < |ids| && j !in todo && j !in pending :: Stored(slot, sorted, j)
    requires PaddingKept(cs, B, was, sorted)
    ensures i in slot && slot[i] < |sorted|
    ensures forall j: nat | j < |ids| && j !in todo && j !in pending - {i} :: Stored(slot, sorted[slot[i] := i], j)
    ensures PaddingKept(cs, B, was, sorted[slot[i] := i])
  {
    hide Members, PairsOf, Counts, Base;
    assert SlotOk(ids, cs, B, counter, slot, owner, i);
    var e := ids[i];
    assert CursorOk(ids, cs, B, todo, counter, e);
    CursorInBucket(ids, cs, B, todo, counter, e);
    Monotone(cs, e + 1, |cs|, B);
    var now := sorted[slot[i] := i];
    forall j: nat | j < |ids| && j !in todo && j !in pending - {i}
      ensures Stored(slot, now, j)
    {
      if j != i {
        assert Stored(slot, sorted, j) && SlotOk(ids, cs, B, counter, slot, owner, j);
      }
    }
    forall d: nat | d < |cs|
      ensures PaddingSame(cs, B, was, now, d)
    {
      assert PaddingSame(cs, B, was, sorted, d);
      if d != e {
        BucketsApart(cs, d, e, B);
      }
    }
  }

  predicate SlotIs(slot: map<nat, nat>, i: nat, p: nat) {
    i in slot && slot[i] == p
  }

  lemma ScatterDone(
    ids: seq<nat>, cs: seq<nat>, B: nat, counter: seq<nat>, slot: map<nat, nat>, owner: map<nat, nat>, sorted: seq<nat>,
        e: nat)
    requires B > 0 && Scattering(ids, cs, B, {}, counter, slot, owner) && cs == Counts(ids, |cs|)
    requires e < |cs| && Base(cs, e + 1, B) <= |sorted|
    requires forall i: nat | i < |ids| :: Stored(slot, sorted, i)
    ensures PairsOk(ids, cs, sorted, e, B)
  {
    hide PairsOf, Counts, Base;
    CountAt(ids, cs, e);
    PairsAreMembers(ids, e);
    assert CursorOk(ids, cs, B, {}, counter, e);
    assert Members(ids, e) - {} == Members(ids, e);
    CursorInBucket(ids, cs, B, {}, counter, e);
    var lo := Base(cs, e, B);
    var run := sorted[lo..lo + cs[e]];
    forall k: nat | k < |run|
      ensures run[k] < |ids| && ids[run[k]] == e && SlotIs(slot, run[k], lo + k)
    {
      assert OwnerOk(ids, {}, slot, owner, e, lo + k);
      assert Stored(slot, sorted, owner[lo + k]);
    }
    DistinctPairsAreAll(ids, e, run);
  }

  /** The four launches on the buffers the host allocates. */
  method AlignTriton(ids: seq<nat>, E: nat, B: nat) returns (sorted: array<nat>, experts: array<nat>, total: nat)
    requires B > 0 && Routed(ids, E)
    ensures IsAlignment(ids, E, B, sorted[..], experts[..], total)
    ensures sorted.Length == |ids| + Slack(E, B) && experts.Length == CeilDiv(sorted.Length, B)
    ensures forall b | total / B <= b < experts.Length :: experts[b] == 0
  {
    hide PairsOk, PaddingOk, ExpertsOk, PaddingSame, Base, Blocks, NumBlocks, Slack, CeilDiv;
    var upper := |ids| + Slack(E, B);
    var maxPerExpert := CeilDiv(|ids|, B) + 1;
    sorted := new nat[upper](_ => 0);
    experts := new nat[CeilDiv(upper, B)](_ => 0);
    var counts := new nat[E](_ => 0);
    var base, counter, padded := new nat[E](_ => 0), new nat[E](_ => 0), new nat[E](_ => 0);
    CountTokens(ids, counts);
    total := Meta(counts, base, counter, padded, B);
    ghost var cs := counts[..];
    TotalFitsBuffer(ids, E, B);
    FitsWhole(cs, B, sorted.Length, experts.Length);
    var chunk := 64;
    var numChunks := CeilDiv(maxPerExpert, chunk);
    RoundUp(maxPerExpert, chunk);
    forall e: nat | e < E
      ensures NumBlocks(cs[e], B) <= numChunks * chunk
    {
      EnoughChunks(ids, E, B, chunk, e);
    }
    Fill(counts[..], B, |ids|, chunk, numChunks, base, padded, experts, sorted);
    label Filled:
    ScatterTokens(ids, cs, B, counter, sorted);
    BaseIsBlocks(cs, E, B);
    forall e: nat | e < E
      ensures PaddingOk(cs, sorted[..], e, B, |ids|)
    {
      assert PaddingOk(cs, old@Filled(sorted[..]), e, B, |ids|);
      assert PaddingSame(cs, B, old@Filled(sorted[..]), sorted[..], e);
      SamePadding(cs, B, old@Filled(sorted[..]), sorted[..], |ids|, e);
    }
  }

  lemma SamePadding(cs: seq<nat>, B: nat, was: seq<nat>, now: seq<nat>, sentinel: nat, e: nat)
    requires B > 0 && e < |cs| && |was| == |now| && Base(cs, e + 1, B) <= |now|
    requires PaddingOk(cs, was, e, B, sentinel) && PaddingSame(cs, B, was, now, e)
    ensures PaddingOk(cs, now, e, B, sentinel)
  {
  }

  lemma EnoughChunks(ids: seq<nat>, E: nat, B: nat, chunk: nat, e: nat)
    requires B > 0 && chunk > 0 && e < E
    ensures NumBlocks(Counts(ids, E)[e], B) <= CeilDiv(CeilDiv(|ids|, B) + 1, chunk) * chunk
  {
    PairsAreMembers(ids, e);
    SubsetCard(Members(ids, e), Range(|ids|));
    PaddedIsCeil(Counts(ids, E)[e], B);
    CeilMonotone(Counts(ids, E)[e], |ids|, B);
    RoundUp(CeilDiv(|ids|, B) + 1, chunk);
  }

  lemma RoundUp(n: nat, k: nat)
    requires k > 0
    ensures n <= CeilDiv(n, k) * k && (n > 0 ==> CeilDiv(n, k) > 0)
  {
  }

  lemma CeilMonotone(a: nat, b: nat, B: nat)
    requires B > 0 && a <= b
    ensures CeilDiv(a, B) <= CeilDiv(b, B)
  {
    var q, r := (a + B - 1) / B, (b + B - 1) / B;
    assert q * B <= a + B - 1 && b + B - 1 < r * B + B;
    assert (q - r) * B == q * B - r * B;
    MulAtLeast(q - r, B);
  }
}
