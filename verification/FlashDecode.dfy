/** Split-K flash decoding of one head over the reals: partial softmax states per split, whatever the
    split count and block size, reduced to attention over the whole sequence. */
module FlashDecode {
  import opened Pages
  import opened Orders
  import opened RealVectors
  import opened OnlineSoftmax

  function Scores(q: Row, K: seq<Row>): (r: seq<Ext>)
    requires forall j | 0 <= j < |K| :: |K[j]| == |q|
    ensures |r| == |K| && forall j | 0 <= j < |K| :: r[j] == Fin(Dot(q, K[j]))
  {
    if K == [] then [] else Scores(q, K[..|K| - 1]) + [Fin(Dot(q, K[|K| - 1]))]
  }

  predicate HeadOk(q: Row, K: seq<Row>, V: seq<Row>, D: nat) {
    |q| == D && |K| == |V| && (forall j | 0 <= j < |K| :: |K[j]| == D) && forall j | 0 <= j < |V| :: |V[j]| == D
  }

  /** Where split `k` starts, and where split `k - 1` ends. */
  function Bound(k: nat, size: nat, n: nat): (r: nat)
    ensures r <= n
  {
    Min(Times(k, size), n)
  }

  function Times(a: nat, b: nat): nat {
    a * b
  }

  lemma BoundStep(k: nat, size: nat, n: nat)
    ensures Bound(k, size, n) <= Bound(k + 1, size, n) && Times(k + 1, size) == Times(k, size) + size
  {
    assert (k + 1) * size == k * size + size;
  }

  // ---- Stage 1 -------------------------------------------------------------------------------

  function Masked(n: nat): (r: seq<Ext>)
    ensures |r| == n && MaxOf(r).NegInf?
  {
    if n == 0 then [] else Masked(n - 1) + [NegInf]
  }

  function ZeroRows(n: nat, D: nat): (r: seq<Row>)
    ensures |r| == n && forall j | 0 <= j < n :: r[j] == Zeros(D)
  {
    if n == 0 then [] else ZeroRows(n - 1, D) + [Zeros(D)]
  }

  lemma CarriesUnique(exp: real -> real, s: seq<Ext>, V: seq<Row>, D: nat, a: State, b: State)
    requires Carries(exp, s, V, D, a) && Carries(exp, s, V, D, b)
    ensures a == b
  {
    assert a.o == b.o;
  }

  lemma {:induction false} OneFinite(s: seq<Ext>, j: nat)
    requires j < |s| && s[j].Fin?
    ensures MaxOf(s).Fin?
    decreases |s|
  {
    if j < |s| - 1 {
      OneFinite(s[..|s| - 1], j);
    }
  }

  /** Lanes past the end of the split are masked and load zeros: they leave no trace. */
  lemma TileLanes(exp: real -> real, s: seq<Ext>, V: seq<Row>, D: nat, extra: nat)
    requires IsExp(exp) && ValuesOk(s, V, D) && MaxOf(s).Fin?
    ensures ValuesOk(s + Masked(extra), V + ZeroRows(extra, D), D) && MaxOf(s + Masked(extra)).Fin?
    ensures Carries(exp, s, V, D, TileState(exp, s + Masked(extra), V + ZeroRows(extra, D), D))
  {
    MaxConcat(s, Masked(extra));
    var whole := TileState(exp, s + Masked(extra), V + ZeroRows(extra, D), D);
    MaskedCarries(exp, s, V, Masked(extra), ZeroRows(extra, D), D, TileState(exp, s, V, D));
    CarriesUnique(exp, s + Masked(extra), V + ZeroRows(extra, D), D, whole, TileState(exp, s, V, D));
  }

  /** One program of the first kernel. */
  method Stage1(exp: real -> real, s: seq<Ext>, V: seq<Row>, D: nat, split: nat, numSplits: nat, BN: nat)
    returns (st: State)
    requires IsExp(exp) && ValuesOk(s, V, D) && (forall j | 0 <= j < |s| :: s[j].Fin?)
    requires BN > 0 && numSplits > 0
    ensures var size := CeilOf(|s|, numSplits);
            var lo, hi := Bound(split, size, |s|), Bound(split + 1, size, |s|);
            lo <= hi && Carries(exp, s[lo..hi], V[lo..hi], D, st)
  {
    hide IsExp, Carries, Fold, TileState, MaxOf, CeilOf;
    var size := CeilOf(|s|, numSplits);
    var start := Times(split, size);
    var end := Min(start + size, |s|);
    BoundStep(split, size, |s|);
    ghost var lo := Bound(split, size, |s|);
    st := Start(D);
    StartCarries(exp, D);
    var startN := start;
    if start < end {
      assert s[lo..lo] == [] && V[lo..lo] == [];
    } else {
      assert s[lo..end] == [] && V[lo..end] == [];
    }
    while startN < end
      invariant start <= startN && (start < end ==> lo == start)
      invariant var done := if startN < end then startN else end;
                (start < end || done == end) && (start < end ==> lo <= done) && (start >= end ==> lo == end)
                && Carries(exp, s[lo..done], V[lo..done], D, st)
      decreases end - startN
    {
      var stop := Min(startN + BN, end);
      var lanes, rows := s[startN..stop], V[startN..stop];
      OneFinite(lanes, 0);
      TileLanes(exp, lanes, rows, D, startN + BN - stop);
      var tile := TileState(exp, lanes + Masked(startN + BN - stop), rows + ZeroRows(startN + BN - stop, D), D);
      StatesMatch(exp, s[lo..startN], V[lo..startN], lanes, rows, D, st, tile);
      st := Fold(exp, st, tile);
      assert s[lo..startN] + lanes == s[lo..stop] && V[lo..startN] + rows == V[lo..stop];
      startN := startN + BN;
    }
  }

  function CeilOf(n: nat, k: nat): nat
    requires k > 0
  {
    (n + k - 1) / k
  }

  lemma StartCarries(exp: real -> real, D: nat)
    ensures Carries(exp, [], [], D, Start(D))
  {
  }

  lemma StatesMatch(exp: real -> real, s: seq<Ext>, V: seq<Row>, t: seq<Ext>, W: seq<Row>, D: nat, st: State,
      tile: State)
    requires IsExp(exp) && Carries(exp, s, V, D, st) && Carries(exp, t, W, D, tile) && MaxOf(t).Fin?
    ensures tile.m.Fin? && |st.o| == |tile.o| == D && Carries(exp, s + t, V + W, D, Fold(exp, st, tile))
  {
    FoldCarries(exp, s, V, t, W, D, st, tile);
  }

  // ---- Stage 2 -------------------------------------------------------------------------------

  function MaxLane(lanes: seq<State>): Ext {
    if lanes == [] then NegInf else ExtMax(MaxLane(lanes[..|lanes| - 1]), lanes[|lanes| - 1].m)
  }

  /** `sum(l * alpha)`, the rescaled masses of the lanes. */
  function TotalMass(exp: real -> real, lanes: seq<State>, m: real): real {
    if lanes == [] then 0.0
    else TotalMass(exp, lanes[..|lanes| - 1], m) + lanes[|lanes| - 1].l * ExpFrom(exp, lanes[|lanes| - 1].m, m)
  }

  /** `sum(acc * alpha)` in column `d`. */
  function TotalMoment(exp: real -> real, lanes: seq<State>, m: real, d: nat): real
    requires forall k | 0 <= k < |lanes| :: d < |lanes[k].o|
  {
    if lanes == [] then 0.0
    else TotalMoment(exp, lanes[..|lanes| - 1], m, d) + lanes[|lanes| - 1].o[d] * ExpFrom(exp, lanes[|lanes| - 1].m, m)
  }

  predicate LaneOk(exp: real -> real, s: seq<Ext>, V: seq<Row>, D: nat, size: nat, k: nat, st: State)
    requires ValuesOk(s, V, D)
  {
    var lo, hi := Bound(k, size, |s|), Bound(k + 1, size, |s|);
    lo <= hi && Carries(exp, s[lo..hi], V[lo..hi], D, st)
  }

  lemma LaneWidth(exp: real -> real, s: seq<Ext>, V: seq<Row>, D: nat, size: nat, k: nat, st: State)
    requires ValuesOk(s, V, D) && LaneOk(exp, s, V, D, size, k, st)
    ensures |st.o| == D
  {
  }

  /** The first lanes add up to the first splits. */
  lemma {:induction false} LanesAddUp(exp: real -> real, s: seq<Ext>, V: seq<Row>, D: nat, size: nat,
      lanes: seq<State>, m: real)
    requires IsExp(exp) && ValuesOk(s, V, D)
    requires forall k: nat | k < |lanes| :: LaneOk(exp, s, V, D, size, k, lanes[k])
    ensures var n := Bound(|lanes|, size, |s|);
            MaxLane(lanes) == MaxOf(s[..n]) && TotalMass(exp, lanes, m) == Mass(exp, s[..n], m)
  {
    hide Mass, Carries, ExpFrom;
    if lanes == [] {
      assert s[..0] == [];
      NoMass(exp, m);
    } else {
      var k := |lanes| - 1;
      LanesAddUp(exp, s, V, D, size, lanes[..k], m);
      LaneAdds(exp, s, V, D, size, k, lanes[k], m);
    }
  }

  lemma NoMass(exp: real -> real, m: real)
    ensures Mass(exp, [], m) == 0.0
  {
  }

  lemma LaneAdds(exp: real -> real, s: seq<Ext>, V: seq<Row>, D: nat, size: nat, k: nat, st: State, m: real)
    requires IsExp(exp) && ValuesOk(s, V, D) && LaneOk(exp, s, V, D, size, k, st)
    ensures var lo, hi := Bound(k, size, |s|), Bound(k + 1, size, |s|);
            MaxOf(s[..hi]) == ExtMax(MaxOf(s[..lo]), st.m)
            && Mass(exp, s[..hi], m) == Mass(exp, s[..lo], m) + st.l * ExpFrom(exp, st.m, m)
  {
    hide Mass, ExpFrom, MaxOf;
    var lo, hi := Bound(k, size, |s|), Bound(k + 1, size, |s|);
    assert s[..hi] == s[..lo] + s[lo..hi];
    MaxConcat(s[..lo], s[lo..hi]);
    MassConcat(exp, s[..lo], s[lo..hi], m);
    Rescaled(exp, s[lo..hi], V[lo..hi], D, st, m);
  }

  lemma {:induction false} LaneMomentsAddUp(
    exp: real -> real, s: seq<Ext>, V: seq<Row>, D: nat, size: nat, lanes: seq<State>, m: real, d: nat)
    requires IsExp(exp) && ValuesOk(s, V, D) && d < D
    requires forall k: nat | k < |lanes| :: LaneOk(exp, s, V, D, size, k, lanes[k])
    ensures forall k | 0 <= k < |lanes| :: d < |lanes[k].o|
    ensures var n := Bound(|lanes|, size, |s|); TotalMoment(exp, lanes, m, d) == Moment(exp, s[..n], V[..n], m, d)
  {
    hide Moment, Carries, ExpFrom, LaneOk;
    forall k: nat | k < |lanes|
      ensures d < |lanes[k].o|
    {
      LaneWidth(exp, s, V, D, size, k, lanes[k]);
    }
    if lanes == [] {
      assert s[..0] == [] && V[..0] == [];
      NoMoment(exp, m, d);
    } else {
      var k := |lanes| - 1;
      LaneMomentsAddUp(exp, s, V, D, size, lanes[..k], m, d);
      LaneWidth(exp, s, V, D, size, k, lanes[k]);
      LaneMomentAdds(exp, s, V, D, size, k, lanes[k], m, d);
    }
  }

  lemma NoMoment(exp: real -> real, m: real, d: nat)
    ensures Moment(exp, [], [], m, d) == 0.0
  {
  }

  lemma LaneMomentAdds(exp: real -> real, s: seq<Ext>, V: seq<Row>, D: nat, size: nat, k: nat, st: State, m: real,
      d: nat)
    requires IsExp(exp) && ValuesOk(s, V, D) && LaneOk(exp, s, V, D, size, k, st) && d < D && |st.o| == D
    ensures var lo, hi := Bound(k, size, |s|), Bound(k + 1, size, |s|);
            Moment(exp, s[..hi], V[..hi], m, d) == Moment(exp, s[..lo], V[..lo], m, d) + st.o[d] * ExpFrom(exp, st.m, m)
  {
    hide Moment, ExpFrom, MaxOf;
    var lo, hi := Bound(k, size, |s|), Bound(k + 1, size, |s|);
    assert s[..hi] == s[..lo] + s[lo..hi] && V[..hi] == V[..lo] + V[lo..hi];
    MomentConcat(exp, s[..lo], s[lo..hi], V[..lo], V[lo..hi], m, d);
    RescaledMoment(exp, s[lo..hi], V[lo..hi], D, st, m, d);
  }

  /** `num_splits` splits of the ceiling size cover the sequence. */
  lemma SplitsCover(n: nat, numSplits: nat)
    requires numSplits > 0
    ensures Bound(numSplits, CeilOf(n, numSplits), n) == n
  {
    var size := CeilOf(n, numSplits);
    assert n + numSplits - 1 < size * numSplits + numSplits;
    assert Times(numSplits, size) == size * numSplits;
  }

  /** A lane past the last split, masked on load, is an empty split. */
  lemma {:induction false} PaddingLanes(exp: real -> real, s: seq<Ext>, V: seq<Row>, D: nat, size: nat, k: nat)
    requires ValuesOk(s, V, D) && Bound(k, size, |s|) == |s|
    ensures LaneOk(exp, s, V, D, size, k, Start(D)) && Bound(k + 1, size, |s|) == |s|
  {
    BoundStep(k, size, |s|);
    assert s[|s|..|s|] == [] && V[|s|..|s|] == [];
  }

  /** The second kernel: lanes up to a power of two, the extra ones masked. */
  method Reduce(exp: real -> real, lanes: seq<State>, D: nat, ghost s: seq<Ext>, ghost V: seq<Row>, ghost size: nat)
    returns (out: Row)
    requires IsExp(exp) && ValuesOk(s, V, D) && MaxOf(s).Fin? && Mass(exp, s, 0.0) > 0.0
    requires Bound(|lanes|, size, |s|) == |s| && forall k: nat | k < |lanes| :: LaneOk(exp, s, V, D, size, k, lanes[k])
    ensures |out| == D && forall d: nat | d < D :: out[d] == Attention(exp, s, V, D, d)
  {
    hide IsExp, Attention, Moment, Mass, LaneOk, MaxOf, MaxLane, TotalMass, TotalMoment;
    assert s[..|s|] == s && V[..|s|] == V;
    LanesAddUp(exp, s, V, D, size, lanes, 0.0);
    var mFinal := MaxLane(lanes);
    LanesAddUp(exp, s, V, D, size, lanes, mFinal.v);
    MassSign(exp, s, mFinal.v);
    var lFinal := TotalMass(exp, lanes, mFinal.v);
    out := [];
    for d := 0 to D
      invariant |out| == d && forall c: nat | c < d :: out[c] == Attention(exp, s, V, D, c)
    {
      LaneMomentsAddUp(exp, s, V, D, size, lanes, mFinal.v, d);
      QuotientIsAttention(exp, s, V, D, mFinal.v, d);
      out := out + [TotalMoment(exp, lanes, mFinal.v, d) / lFinal];
    }
  }

  // ---- The two launches ----------------------------------------------------------------------

  datatype Result = Ok(out: Row) | ValueError

  /** Programs of the first launch run in any order; an empty cache or no split is an error. */
  method FlashDecodeSplitK(exp2: real -> real, q: Row, K: seq<Row>, V: seq<Row>, D: nat, scale: real, numSplits: int,
      BN: nat)
    returns (res: Result)
    requires IsExp(exp2) && HeadOk(q, K, V, D) && BN > 0
    ensures res.ValueError? <==> |K| == 0 || numSplits <= 0
    ensures res.Ok? ==>
              var s := Scores(Scale(q, scale), K);
              && Mass(exp2, s, 0.0) > 0.0 && ValuesOk(s, V, D)
              && |res.out| == D && forall d: nat | d < D :: res.out[d] == Attention(exp2, s, V, D, d)
  {
    hide IsExp, Attention, Mass, LaneOk, MaxOf, CeilOf;
    if |K| == 0 || numSplits <= 0 {
      return ValueError;
    }
    var s := Scores(Scale(q, scale), K);
    OneFinite(s, 0);
    MassSign(exp2, s, 0.0);
    var splits: nat := numSplits;
    var size := CeilOf(|s|, splits);
    var lanes := new State[NextPow2(splits, 1)](_ => Start(D));
    PadLanes(exp2, s, V, D, size, splits, lanes[..]);
    var todo: set<nat> := Splits(splits);
    while todo != {}
      invariant forall k | k in todo :: k < splits
      invariant forall k: nat | k < lanes.Length && k !in todo :: LaneOk(exp2, s, V, D, size, k, lanes[k])
      decreases |todo|
    {
      var k :| k in todo;
      lanes[k] := Stage1(exp2, s, V, D, k, splits, BN);
      assert LaneOk(exp2, s, V, D, size, k, lanes[k]) by { LaneIs(exp2, s, V, D, size, k, lanes[k]); }
      todo := todo - {k};
    }
    SplitsCover(|s|, splits);
    CoverMore(splits, lanes.Length, size, |s|);
    var out := Reduce(exp2, lanes[..], D, s, V, size);
    res := Ok(out);
  }

  function Splits(n: nat): (r: set<nat>)
    ensures forall k: nat :: k in r <==> k < n
  {
    if n == 0 then {} else Splits(n - 1) + {n - 1}
  }

  lemma LaneIs(exp: real -> real, s: seq<Ext>, V: seq<Row>, D: nat, size: nat, k: nat, st: State)
    requires ValuesOk(s, V, D)
    requires var lo, hi := Bound(k, size, |s|), Bound(k + 1, size, |s|);
             lo <= hi && Carries(exp, s[lo..hi], V[lo..hi], D, st)
    ensures LaneOk(exp, s, V, D, size, k, st)
  {
  }

  lemma {:induction false} CoverMore(k: nat, more: nat, size: nat, n: nat)
    requires Bound(k, size, n) == n && k <= more
    ensures Bound(more, size, n) == n
    decreases more
  {
    if k < more {
      CoverMore(k, more - 1, size, n);
      BoundStep(more - 1, size, n);
    }
  }

  lemma PadLanes(exp: real -> real, s: seq<Ext>, V: seq<Row>, D: nat, size: nat, splits: nat, lanes: seq<State>)
    requires ValuesOk(s, V, D) && splits > 0 && size == CeilOf(|s|, splits)
    requires forall k | 0 <= k < |lanes| :: lanes[k] == Start(D)
    ensures forall k: nat | splits <= k < |lanes| :: LaneOk(exp, s, V, D, size, k, lanes[k])
  {
    SplitsCover(|s|, splits);
    forall k: nat | splits <= k < |lanes|
      ensures LaneOk(exp, s, V, D, size, k, lanes[k])
    {
      CoverMore(splits, k, size, |s|);
      PaddingLanes(exp, s, V, D, size, k);
    }
  }

  // ---- The reference -------------------------------------------------------------------------

  /** `(q @ k^T) * sm_scale`. */
  function ReferenceScores(q: Row, K: seq<Row>, smScale: real): (r: seq<Ext>)
    requires forall j | 0 <= j < |K| :: |K[j]| == |q|
    ensures |r| == |K| && forall j | 0 <= j < |K| :: r[j] == Fin(ReferenceScore(q, K[j], smScale))
  {
    if K == [] then [] else ReferenceScores(q, K[..|K| - 1], smScale) + [Fin(ReferenceScore(q, K[|K| - 1], smScale))]
  }

  function ReferenceScore(q: Row, k: Row, smScale: real): real
    requires |q| == |k|
  {
    Dot(q, k) * smScale
  }

  lemma {:induction false} DotScaled(q: Row, k: Row, c: real)
    requires |q| == |k|
    ensures Dot(Scale(q, c), k) == Dot(q, k) * c
  {
    if q != [] {
      var n := |q| - 1;
      DotScaled(q[..n], k[..n], c);
      assert Scale(q, c)[..n] == Scale(q[..n], c);
      Regroup(q[n], c, k[n]);
    }
  }

  lemma SameScore(q: Row, k: Row, smScale: real, log2e: real)
    requires |q| == |k|
    ensures Dot(Scale(q, smScale * log2e), k) == ReferenceScore(q, k, smScale) * log2e
  {
    hide Dot, Scale;
    DotScaled(q, k, smScale * log2e);
    Associate(Dot(q, k), smScale, log2e);
  }

  lemma Associate(a: real, b: real, c: real)
    ensures a * (b * c) == (a * b) * c
  {
  }

  predicate ExpIs(exp: real -> real, exp2: real -> real, log2e: real, x: real) {
    exp(x) == exp2(x * log2e)
  }

  /** `exp(x)` is `exp2(x * log2e)`. */
  ghost predicate SameBase(exp: real -> real, exp2: real -> real, log2e: real) {
    forall x: real :: ExpIs(exp, exp2, log2e, x)
  }

  /** One score weighs the same in both bases. */
  lemma SameWeight(exp: real -> real, exp2: real -> real, log2e: real, q: Row, k: Row, smScale: real)
    requires |q| == |k| && SameBase(exp, exp2, log2e)
    ensures ExpFrom(exp2, Fin(Dot(Scale(q, smScale * log2e), k)), 0.0)
        == ExpFrom(exp, Fin(ReferenceScore(q, k, smScale)), 0.0)
  {
    hide Dot, Scale, ReferenceScore;
    SameScore(q, k, smScale, log2e);
    var x := ReferenceScore(q, k, smScale);
    assert ExpIs(exp, exp2, log2e, x);
    assert x - 0.0 == x && x * log2e - 0.0 == x * log2e;
  }

  /** Base-two exponentials of scores times `log2 e` are base-e exponentials of the scores. */
  lemma {:induction false} SameWeights(
    exp: real -> real, exp2: real -> real, log2e: real, q: Row, K: seq<Row>, V: seq<Row>, smScale: real, D: nat, d: nat)
    requires SameBase(exp, exp2, log2e) && HeadOk(q, K, V, D) && d < D
    ensures var s, t := Scores(Scale(q, smScale * log2e), K), ReferenceScores(q, K, smScale);
            Mass(exp2, s, 0.0) == Mass(exp, t, 0.0) && Moment(exp2, s, V, 0.0, d) == Moment(exp, t, V, 0.0, d)
  {
    hide Dot, Scale, ReferenceScore, ExpFrom;
    if K != [] {
      var n := |K| - 1;
      SameWeights(exp, exp2, log2e, q, K[..n], V[..n], smScale, D, d);
      SameWeight(exp, exp2, log2e, q, K[n], smScale);
      var s, t := Scores(Scale(q, smScale * log2e), K), ReferenceScores(q, K, smScale);
      assert s[..n] == Scores(Scale(q, smScale * log2e), K[..n]) && t[..n] == ReferenceScores(q, K[..n], smScale);
    }
  }

  /** Flash decoding computes its reference: softmax attention of the scaled scores. */
  lemma DecodeIsReference(
    exp: real -> real, exp2: real -> real, log2e: real, q: Row, K: seq<Row>, V: seq<Row>, smScale: real, D: nat, d: nat)
    requires IsExp(exp2) && SameBase(exp, exp2, log2e) && HeadOk(q, K, V, D) && d < D && K != []
    ensures var s, t := Scores(Scale(q, smScale * log2e), K), ReferenceScores(q, K, smScale);
            && Mass(exp2, s, 0.0) > 0.0 && Mass(exp, t, 0.0) > 0.0 && ValuesOk(s, V, D) && ValuesOk(t, V, D)
            && Attention(exp2, s, V, D, d) == Attention(exp, t, V, D, d)
  {
    var s := Scores(Scale(q, smScale * log2e), K);
    OneFinite(s, 0);
    MassSign(exp2, s, 0.0);
    SameWeights(exp, exp2, log2e, q, K, V, smScale, D, d);
  }
}
