/** What the expert layer computes for its (token, k) pairs, and the pieces of the fused path: the
    choice of alignment kernel, the gate between the two GEMMs and the final sum over each token's
    pairs.  `silu` is any function of the reals. */
module MoeForward {
  import opened Pages
  import opened MoeAlignment
  import opened MoeSmallBatch
  import opened TileSwizzle
  import opened RealVectors
  import opened GroupedGemm

  // ---- The mathematics of a pair -------------------------------------------------------------

  function Gated(silu: real -> real, y: Row, I: nat): (r: Row)
    requires |y| == 2 * I
    ensures |r| == I && forall j | 0 <= j < I :: r[j] == silu(y[j]) * y[I + j]
  {
    GatedTo(silu, y, I, I)
  }

  function GatedTo(silu: real -> real, y: Row, I: nat, n: nat): (r: Row)
    requires |y| == 2 * I && n <= I
    ensures |r| == n && forall j | 0 <= j < n :: r[j] == silu(y[j]) * y[I + j]
  {
    if n == 0 then [] else GatedTo(silu, y, I, n - 1) + [silu(y[n - 1]) * y[I + n - 1]]
  }

  /** `w2 * (silu(gate) * up)` where `w13 * x` is the gate on top of the up projection. */
  function ExpertRow(silu: real -> real, w13: seq<Row>, w2: seq<Row>, H: nat, I: nat, x: Row): (r: Row)
    requires |x| == H && MatrixOk(w13, 2 * I, H) && MatrixOk(w2, H, I)
    ensures |r| == H
  {
    MatVec(w2, Gated(silu, MatVec(w13, x), I))
  }

  datatype Layer = Layer(w13: seq<seq<Row>>, w2: seq<seq<Row>>, H: nat, I: nat)

  predicate LayerOk(L: Layer) {
    |L.w13| == |L.w2| &&
    forall e | 0 <= e < |L.w13| :: MatrixOk(L.w13[e], 2 * L.I, L.H) && MatrixOk(L.w2[e], L.H, L.I)
  }

  datatype Batch = Batch(x: seq<Row>, K: nat, ids: seq<nat>, weights: Row)

  /** `K` pairs for each token. */
  predicate BatchOk(b: Batch, H: nat) {
    && b.K > 0 && |b.ids| == Area(|b.x|, b.K) && |b.weights| == |b.ids|
    && MatrixOk(b.x, |b.x|, H)
  }

  lemma TokenOf(i: nat, T: nat, K: nat)
    requires K > 0 && i < Area(T, K)
    ensures 0 <= i / K < T
  {
    assert i / K * K <= i;
    SmallerFactor(i / K, T, K);
  }

  /** What pair `i` contributes to its token when its expert is local expert `e`, or remote at -1. */
  function PairOut(silu: real -> real, L: Layer, b: Batch, e: int, i: nat): (r: Row)
    requires LayerOk(L) && -1 <= e < |L.w13| && i < |b.ids| && BatchOk(b, L.H)
    ensures |r| == L.H
  {
    TokenOf(i, |b.x|, b.K);
    if e == -1 then Zeros(L.H)
    else Scale(ExpertRow(silu, L.w13[e], L.w2[e], L.H, L.I, b.x[i / b.K]), b.weights[i])
  }

  predicate LocalOk(expertOf: seq<int>, n: nat) {
    forall i | 0 <= i < |expertOf| :: -1 <= expertOf[i] < n
  }

  function PairOuts(silu: real -> real, L: Layer, b: Batch, expertOf: seq<int>, n: nat): (r: seq<Row>)
    requires LayerOk(L) && BatchOk(b, L.H) && LocalOk(expertOf, |L.w13|) && n <= |b.ids| == |expertOf|
    ensures |r| == n && forall i: nat | i < n :: r[i] == PairOut(silu, L, b, expertOf[i], i)
  {
    if n == 0 then [] else PairOuts(silu, L, b, expertOf, n - 1) + [PairOut(silu, L, b, expertOf[n - 1], n - 1)]
  }

  /** Column `h` of rows `from..from + n` added up. */
  function ColumnSum(rows: seq<Row>, from: nat, n: nat, h: nat): real
    requires from + n <= |rows| && forall i | 0 <= i < |rows| :: h < |rows[i]|
  {
    if n == 0 then 0.0 else ColumnSum(rows, from, n - 1, h) + rows[from + n - 1][h]
  }

  /** The layer's output for token `t`: the sum of its pairs' contributions. */
  ghost predicate IsLayerOutput(silu: real -> real, L: Layer, b: Batch, expertOf: seq<int>, out: seq<Row>)
    requires LayerOk(L) && BatchOk(b, L.H) && LocalOk(expertOf, |L.w13|) && |expertOf| == |b.ids|
  {
    var rows := PairOuts(silu, L, b, expertOf, |b.ids|);
    && |out| == |b.x|
    && forall t: nat | t < |b.x| :: |out[t]| == L.H && forall h: nat | h < L.H :: OutCell(rows, t, b.K, h, out[t][h])
  }

  predicate OutCell(rows: seq<Row>, t: nat, K: nat, h: nat, v: real) {
    && Column(t, K, K) <= |rows| && (forall i | 0 <= i < |rows| :: h < |rows[i]|)
    && v == ColumnSum(rows, Column(t, K, 0), K, h)
  }

  // ---- The two GEMMs and the gate ------------------------------------------------------------

  function OutputRows(w: Weights, A: seq<Row>, expertOf: seq<int>, n: nat): (r: seq<Row>)
    requires WeightsOk(w, |expertOf|) && n <= |expertOf| && LocalOk(expertOf, |w.W|)
    requires forall i: nat | i < |expertOf| :: i / w.topk < |A| && |A[i / w.topk]| == w.K
    ensures |r| == n && forall i: nat | i < n :: r[i] == PairRow(w, A, expertOf[i], i)
  {
    if n == 0 then [] else OutputRows(w, A, expertOf, n - 1) + [PairRow(w, A, expertOf[n - 1], n - 1)]
  }

  function GatedRows(silu: real -> real, m: seq<Row>, I: nat): (r: seq<Row>)
    requires forall i | 0 <= i < |m| :: |m[i]| == 2 * I
    ensures |r| == |m| && forall i | 0 <= i < |m| :: r[i] == Gated(silu, m[i], I)
  {
    if m == [] then [] else GatedRows(silu, m[..|m| - 1], I) + [Gated(silu, m[|m| - 1], I)]
  }

  function First(L: Layer, b: Batch): Weights {
    Weights(L.w13, L.H, 2 * L.I, false, [], b.K)
  }

  function Second(L: Layer, b: Batch): Weights {
    Weights(L.w2, L.I, L.H, true, b.weights, 1)
  }

  function Buffer1(L: Layer, b: Batch, expertOf: seq<int>): (r: seq<Row>)
    requires LayerOk(L) && BatchOk(b, L.H) && LocalOk(expertOf, |L.w13|) && |expertOf| == |b.ids|
    ensures |r| == |b.ids| && (forall i | 0 <= i < |r| :: |r[i]| == 2 * L.I) && IsOutput(First(L, b), b.x, expertOf, r)
  {
    assert forall i: nat | i < |expertOf| :: i / b.K < |b.x| by {
      forall i: nat | i < |expertOf|
        ensures i / b.K < |b.x|
      {
        TokenOf(i, |b.x|, b.K);
      }
    }
    OutputRows(First(L, b), b.x, expertOf, |expertOf|)
  }

  function Buffer3(L: Layer, b: Batch, expertOf: seq<int>, mid: seq<Row>): (r: seq<Row>)
    requires LayerOk(L) && LocalOk(expertOf, |L.w13|) && |expertOf| == |b.weights| == |mid|
    requires forall i | 0 <= i < |mid| :: |mid[i]| == L.I
    ensures |r| == |mid| && (forall i | 0 <= i < |r| :: |r[i]| == L.H) && IsOutput(Second(L, b), mid, expertOf, r)
  {
    assert forall i: nat :: i / 1 == i;
    OutputRows(Second(L, b), mid, expertOf, |expertOf|)
  }

  /** Two GEMMs with the gate between them give each pair's contribution. */
  lemma BuffersArePairOuts(silu: real -> real, L: Layer, b: Batch, expertOf: seq<int>)
    requires LayerOk(L) && BatchOk(b, L.H) && LocalOk(expertOf, |L.w13|) && |expertOf| == |b.ids|
    ensures Buffer3(L, b, expertOf, GatedRows(silu, Buffer1(L, b, expertOf), L.I))
         == PairOuts(silu, L, b, expertOf, |b.ids|)
  {
    hide Buffer1, Buffer3, GatedRows, Gated, Scale, MatVec, Zeros, PairOuts;
    var c1 := Buffer1(L, b, expertOf);
    var c2 := GatedRows(silu, c1, L.I);
    var c3 := Buffer3(L, b, expertOf, c2);
    forall i: nat | i < |b.ids|
      ensures c3[i] == PairOut(silu, L, b, expertOf[i], i)
    {
      TokenOf(i, |b.x|, b.K);
      assert c1[i] == PairRow(First(L, b), b.x, expertOf[i], i);
      assert c2[i] == Gated(silu, c1[i], L.I);
      assert i / 1 == i;
      assert c3[i] == PairRow(Second(L, b), c2, expertOf[i], i);
    }
  }

  /** `c2.copy_(silu(gate) * up)`: the product is complete before the copy, so `c1` and `c2` may
      share their start. */
  method SiluMul(silu: real -> real, ghost c1: seq<Row>, tk: nat, I: nat, ws: array<real>)
    requires tk == |c1| && (forall i | 0 <= i < |c1| :: |c1[i]| == 2 * I)
    requires Holds(ws[..], 0, 2 * I, c1) && Area(tk, I) <= ws.Length
    modifies ws
    ensures Holds(ws[..], 0, I, GatedRows(silu, c1, I))
  {
    hide Area, At, Gated, GatedRows, Progress, RowIs;
    ghost var c2 := GatedRows(silu, c1, I);
    var product := new real[Area(tk, I)](_ => 0.0);
    for i := 0 to tk
      invariant Holds(ws[..], 0, 2 * I, c1)
      invariant forall d: nat | d < i :: RowIs(product[..], 0, I, d, c2[d])
    {
      label Before:
      GateRow(silu, c1, c2, i, I, ws, product);
      forall d: nat | d < i
        ensures RowIs(product[..], 0, I, d, c2[d])
      {
        RowStays(old@Before(product[..]), product[..], 0, I, c2, d);
      }
    }
    ghost var whole := product[..];
    assert forall d: nat | d < tk :: RowIs(whole, 0, I, d, c2[d]);
    forall q | 0 <= q < product.Length {
      ws[q] := product[q];
    }
    forall d: nat | d < tk
      ensures RowIs(ws[..], 0, I, d, c2[d])
    {
      RowCopied(whole, ws[..], I, c2, d);
    }
  }

  lemma RowStays(was: seq<real>, now: seq<real>, off: nat, cols: nat, rows: seq<Row>, d: nat)
    requires Progress(was, now, off, cols, rows) && d < |rows| && RowIs(was, off, cols, d, rows[d])
    ensures RowIs(now, off, cols, d, rows[d])
  {
    hide At, Area, CellIs;
  }

  lemma RowCopied(was: seq<real>, now: seq<real>, cols: nat, rows: seq<Row>, d: nat)
    requires d < |rows| && RowIs(was, 0, cols, d, rows[d])
    requires |was| <= |now| && forall q | 0 <= q < |was| :: now[q] == was[q]
    ensures RowIs(now, 0, cols, d, rows[d])
  {
    hide At;
    forall n: nat | n < cols
      ensures CellIs(now, At(0, d, cols, n), rows[d][n])
    {
      assert CellIs(was, At(0, d, cols, n), rows[d][n]);
    }
  }

  lemma GatedAt(silu: real -> real, y: Row, I: nat, j: nat)
    requires |y| == 2 * I && j < I
    ensures Gated(silu, y, I)[j] == silu(y[j]) * y[I + j]
  {
  }

  method GateRow(
    silu: real -> real, ghost c1: seq<Row>, ghost c2: seq<Row>, i: nat, I: nat, ws: array<real>, product: array<real>)
    requires ws != product && i < |c1| == |c2| && |c1[i]| == 2 * I
    requires c2[i] == Gated(silu, c1[i], I)
    requires Holds(ws[..], 0, 2 * I, c1) && Area(|c2|, I) <= product.Length
    modifies product
    ensures Progress(old(product[..]), product[..], 0, I, c2) && RowIs(product[..], 0, I, i, c2[i])
  {
    hide Area, At, Progress, Holds;
    SameProgress(product[..], 0, I, c2);
    RowHeld(ws[..], 0, 2 * I, c1, i);
    for j := 0 to I
      invariant Progress(old(product[..]), product[..], 0, I, c2)
      invariant forall m: nat | m < j :: CellIs(product[..], At(0, i, I, m), c2[i][m])
    {
      assert CellIs(ws[..], At(0, i, 2 * I, j), c1[i][j]) && CellIs(ws[..], At(0, i, 2 * I, I + j), c1[i][I + j]);
      var gate, up := ws[At(0, i, 2 * I, j)], ws[At(0, i, 2 * I, I + j)];
      assert gate == c1[i][j] && up == c1[i][I + j];
      assert c2[i][j] == silu(gate) * up by { GatedAt(silu, c1[i], I, j); }
      StoreProgress(product[..], 0, I, c2, i, j);
      label Before:
      product[At(0, i, I, j)] := silu(gate) * up;
      assert product[..] == old@Before(product[..])[At(0, i, I, j) := c2[i][j]];
      ProgressTrans(old(product[..]), old@Before(product[..]), product[..], 0, I, c2);
      RightStay(old@Before(product[..]), product[..], 0, I, c2, i);
    }
  }

  /** `c3.view(T, K, H).sum(dim=1)`. */
  method Reduce(ws: array<real>, off: nat, ghost rows: seq<Row>, T: nat, K: nat, H: nat) returns (out: seq<Row>)
    requires |rows| == Area(T, K) && (forall i | 0 <= i < |rows| :: |rows[i]| == H) && Holds(ws[..], off, H, rows)
    ensures |out| == T
    ensures forall t: nat | t < T :: |out[t]| == H && forall h: nat | h < H :: OutCell(rows, t, K, h, out[t][h])
  {
    hide Area, At, OutCell;
    out := [];
    for t := 0 to T
      invariant |out| == t
      invariant forall d: nat | d < t :: |out[d]| == H && forall h: nat | h < H :: OutCell(rows, d, K, h, out[d][h])
    {
      TokenRows(t, T, K);
      var row := [];
      for h := 0 to H
        invariant |row| == h
        invariant forall g: nat | g < h :: OutCell(rows, t, K, g, row[g])
      {
        var sum := 0.0;
        for k := 0 to K
          invariant sum == ColumnSum(rows, Column(t, K, 0), k, h)
        {
          var i := Column(t, K, k);
          RowHeld(ws[..], off, H, rows, i);
          assert CellIs(ws[..], At(off, i, H, h), rows[i][h]);
          sum := sum + ws[At(off, i, H, h)];
        }
        CellIsSum(rows, t, K, h, sum);
        row := row + [sum];
      }
      out := out + [row];
    }
  }

  lemma CellIsSum(rows: seq<Row>, t: nat, K: nat, h: nat, v: real)
    requires Column(t, K, K) <= |rows| && (forall i | 0 <= i < |rows| :: h < |rows[i]|)
    requires v == ColumnSum(rows, Column(t, K, 0), K, h)
    ensures OutCell(rows, t, K, h, v)
  {
  }

  lemma TokenRows(t: nat, T: nat, K: nat)
    requires t < T
    ensures Column(t, K, K) <= Area(T, K)
  {
    MulMonotone(t + 1, T, K);
    assert (t + 1) * K == t * K + K;
  }

  // ---- The fused path ------------------------------------------------------------------------

  /** Align with the launcher's choice of kernel, at the block size of 32 the layer always uses. */
  method Align(ids: seq<nat>, E: nat) returns (sorted: array<nat>, experts: array<nat>, total: nat)
    requires Routed(ids, E)
    ensures IsAlignment(ids, E, 32, sorted[..], experts[..], total)
    ensures forall b | 0 <= b < experts.Length :: experts[b] < E
  {
    if |ids| <= 1024 && E <= 64 {
      DefaultBlockHasLanes(ids, E);
      sorted, experts, total := AlignSmallBatch(ids, E, 32);
    } else {
      sorted, experts, total := AlignTriton(ids, E, 32);
    }
    ExpertsBounded(ids, E, 32, sorted[..], experts[..], total);
  }

  /** Entries past the real blocks stay zero, so every entry may index the expert map. */
  lemma ExpertsBounded(ids: seq<nat>, E: nat, B: nat, sorted: seq<nat>, experts: seq<nat>, total: nat)
    requires B > 0 && Routed(ids, E) && IsAlignment(ids, E, B, sorted, experts, total)
    requires |sorted| == |ids| + Slack(E, B) && |experts| == CeilDiv(|sorted|, B)
    requires forall b | total / B <= b < |experts| :: experts[b] == 0
    ensures forall b | 0 <= b < |experts| :: experts[b] < E
  {
    hide IsAlignment, Base;
    TotalIs(ids, E, B, sorted, experts, total);
    BaseIsBlocks(Counts(ids, E), E, B);
    if E == 0 {
      DivModUnique(B - 1, B, 0, B - 1);
    }
    if ids != [] {
      assert ids[0] < E;
    }
    forall b: nat | b < total / B
      ensures experts[b] < E
    {
      InBlock(b, total / B, B);
      DivModUnique(b * B, B, b, 0);
      BlocksArePure(ids, E, B, sorted, experts, total, b * B);
    }
  }
}
