/** Expert and tensor parallelism: the partial outputs of all ranks add up to what one rank holding
    every weight computes. */
module ExpertParallel {
  import opened Pages
  import opened MoeAlignment
  import opened TileSwizzle
  import opened RealVectors
  import opened GroupedGemm
  import opened MoeForward
  import opened ExpertLayer

  /** The checkpoint's projections of one expert. */
  datatype Expert = Expert(gate: seq<Row>, up: seq<Row>, down: seq<Row>)

  predicate ExpertOk(x: Expert, H: nat, F: nat) {
    MatrixOk(x.gate, F, H) && MatrixOk(x.up, F, H) && MatrixOk(x.down, H, F)
  }

  predicate ModelOk(full: seq<Expert>, H: nat, F: nat) {
    forall e | 0 <= e < |full| :: ExpertOk(full[e], H, F)
  }

  function TopShard(x: Expert, s: nat, I: nat, H: nat, F: nat): (r: seq<Row>)
    requires ExpertOk(x, H, F) && Column(s, I, I) <= F
    ensures MatrixOk(r, 2 * I, H)
    ensures forall j: nat | j < I :: r[j] == x.gate[Column(s, I, j)] && r[I + j] == x.up[Column(s, I, j)]
  {
    Slice(x.gate, s, I) + Slice(x.up, s, I)
  }

  function DownShard(x: Expert, s: nat, I: nat, H: nat, F: nat): (r: seq<Row>)
    requires ExpertOk(x, H, F) && Column(s, I, I) <= F
    ensures MatrixOk(r, H, I) && forall h: nat | h < H :: r[h] == Slice(x.down[h], s, I)
  {
    ShardColumns(x.down, s, I)
  }

  /** Loading the three projections, gate and up in either order, makes the shard. */
  lemma LoadsMakeShard(x: Expert, s: nat, I: nat, H: nat, F: nat, w13: seq<Row>, w2: seq<Row>)
    requires ExpertOk(x, H, F) && Column(s, I, I) <= F && |w13| == 2 * I
    ensures LoadedTop(LoadedTop(w13, GateProj, x.gate, s, I), UpProj, x.up, s, I) == TopShard(x, s, I, H, F)
    ensures LoadedTop(LoadedTop(w13, UpProj, x.up, s, I), GateProj, x.gate, s, I) == TopShard(x, s, I, H, F)
    ensures LoadedDown(w2, DownProj, x.down, s, I) == DownShard(x, s, I, H, F)
  {
  }

  function TopShards(full: seq<Expert>, s: nat, I: nat, H: nat, F: nat, start: nat, n: nat): (r: seq<seq<Row>>)
    requires ModelOk(full, H, F) && Column(s, I, I) <= F && start + n <= |full|
    ensures |r| == n && forall l: nat | l < n :: r[l] == TopShard(full[start + l], s, I, H, F)
  {
    if n == 0 then [] else TopShards(full, s, I, H, F, start, n - 1) + [TopShard(full[start + n - 1], s, I, H, F)]
  }

  function DownShards(full: seq<Expert>, s: nat, I: nat, H: nat, F: nat, start: nat, n: nat): (r: seq<seq<Row>>)
    requires ModelOk(full, H, F) && Column(s, I, I) <= F && start + n <= |full|
    ensures |r| == n && forall l: nat | l < n :: r[l] == DownShard(full[start + l], s, I, H, F)
  {
    if n == 0 then [] else DownShards(full, s, I, H, F, start, n - 1) + [DownShard(full[start + n - 1], s, I, H, F)]
  }

  /** The weights of the rank with tensor slice `s` that owns the `n` experts from `start`. */
  function RankLayer(full: seq<Expert>, s: nat, I: nat, H: nat, F: nat, start: nat, n: nat): (L: Layer)
    requires ModelOk(full, H, F) && Column(s, I, I) <= F && start + n <= |full|
    ensures LayerOk(L) && |L.w13| == n && L.H == H && L.I == I
  {
    Layer(TopShards(full, s, I, H, F, start, n), DownShards(full, s, I, H, F, start, n), H, I)
  }

  /** What pair `i` contributes on that rank. */
  function RankRow(silu: real -> real, full: seq<Expert>, s: nat, I: nat, H: nat, F: nat, start: nat, n: nat,
      b: Batch, i: nat): (r: Row)
    requires ModelOk(full, H, F) && Column(s, I, I) <= F && start + n <= |full|
    requires BatchOk(b, H) && i < |b.ids|
    ensures |r| == H
  {
    var e := b.ids[i];
    PairOut(silu, RankLayer(full, s, I, H, F, start, n), b, if start <= e < start + n then e - start else -1, i)
  }

  function RankRows(silu: real -> real, full: seq<Expert>, s: nat, I: nat, H: nat, F: nat, start: nat, n: nat,
      b: Batch): (r: seq<Row>)
    requires ModelOk(full, H, F) && Column(s, I, I) <= F && start + n <= |full|
    requires BatchOk(b, H) && Routed(b.ids, |full|)
    ensures |r| == |b.ids| && forall i: nat | i < |b.ids| :: r[i] == RankRow(silu, full, s, I, H, F, start, n, b, i)
  {
    MapIsLocal(|full|, start, n, b.ids);
    PairOuts(silu, RankLayer(full, s, I, H, F, start, n), b, ExpertsOf(ExpertMap(|full|, start, n), b.ids), |b.ids|)
  }

  /** `out` is that rank's output: `FusedExperts.IsRankOutput` for its weights and its expert map. */
  ghost predicate IsPartial(
    silu: real -> real, full: seq<Expert>, s: nat, I: nat, H: nat, F: nat, start: nat, n: nat, b: Batch, out: seq<Row>)
    requires ModelOk(full, H, F) && Column(s, I, I) <= F && start + n <= |full|
    requires BatchOk(b, H) && Routed(b.ids, |full|)
  {
    MapIsLocal(|full|, start, n, b.ids);
    IsLayerOutput(silu, RankLayer(full, s, I, H, F, start, n), b, ExpertsOf(ExpertMap(|full|, start, n), b.ids), out)
  }

  /** A rank object loaded with its shards computes that rank's partial output. */
  lemma RankOutputIsPartial(
    layer: FusedExperts, full: seq<Expert>, s: nat, F: nat, b: Batch, out: seq<Row>)
    requires layer.Valid() && |full| == layer.numExperts && ModelOk(full, layer.H, F)
    requires Column(s, layer.I, layer.I) <= F
    requires layer.Shards() == RankLayer(full, s, layer.I, layer.H, F, layer.start, layer.numLocal)
    requires BatchOk(b, layer.H) && Routed(b.ids, |full|)
    ensures layer.IsRankOutput(b, out)
       <==> IsPartial(layer.silu, full, s, layer.I, layer.H, F, layer.start, layer.numLocal, b, out)
  {
  }

  // ---- Loading a checkpoint ------------------------------------------------------------------

  function Weight(x: Expert, which: Projection): seq<Row> {
    match which
    case GateProj => x.gate
    case UpProj => x.up
    case DownProj => x.down
    case OtherProj => []
  }

  /** The rank's stacked weights hold its slice of a projection of expert `start + l`. */
  predicate Loaded(w13: seq<seq<Row>>, w2: seq<seq<Row>>, x: Expert, s: nat, I: nat, H: nat, F: nat, l: nat,
      which: Projection)
    requires ExpertOk(x, H, F) && Column(s, I, I) <= F
  {
    && l < |w13| && l < |w2| && |w13[l]| == 2 * I
    && match which
       case GateProj => w13[l][..I] == Slice(x.gate, s, I)
       case UpProj => w13[l][I..] == Slice(x.up, s, I)
       case DownProj => w2[l] == ShardColumns(x.down, s, I)
       case OtherProj => true
  }

  /** What a sequence of calls of the weight loader has put in place. */
  ghost predicate AllLoaded(layer: FusedExperts, full: seq<Expert>, s: nat, F: nat, calls: seq<(nat, Projection)>)
    requires ModelOk(full, layer.H, F) && Column(s, layer.I, layer.I) <= F
    reads layer
  {
    forall e: nat, which | (e, which) in calls && layer.Owns(e) && e < |full| ::
      Loaded(layer.w13, layer.w2, full[e], s, layer.I, layer.H, F, e - layer.start, which)
  }

  /** Loading every projection of every expert, in any order and any number of times, makes the rank's
      weights. */
  method LoadModel(layer: FusedExperts, full: seq<Expert>, s: nat, F: nat, calls: seq<(nat, Projection)>)
    requires layer.Valid() && |full| == layer.numExperts && ModelOk(full, layer.H, F)
    requires Column(s, layer.I, layer.I) <= F
    requires forall c | c in calls :: c.0 < |full| && c.1 != OtherProj
    requires forall e: nat, which | e < |full| && which != OtherProj :: (e, which) in calls
    modifies layer`w13, layer`w2
    ensures layer.Valid()
    ensures layer.Shards() == RankLayer(full, s, layer.I, layer.H, F, layer.start, layer.numLocal)
  {
    hide TopShards, DownShards, ShardColumns, Slice, Loaded;
    for k := 0 to |calls|
      invariant layer.Valid() && AllLoaded(layer, full, s, F, calls[..k])
    {
      var e, which := calls[k].0, calls[k].1;
      assert calls[k] in calls && ExpertOk(full[e], layer.H, F);
      ghost var top, down := layer.w13, layer.w2;
      var _ := layer.LoadExpertWeight(e, which, Weight(full[e], which), s);
      assert calls[..k + 1] == calls[..k] + [calls[k]];
      forall e': nat, which' | (e', which') in calls[..k + 1] && layer.Owns(e') && e' < |full|
        ensures Loaded(layer.w13, layer.w2, full[e'], s, layer.I, layer.H, F, e' - layer.start, which')
      {
        if layer.Owns(e) {
          LoadKeeps(top, down, full[e], full[e'], s, layer.I, layer.H, F, e - layer.start, which, e' - layer.start,
              which');
        }
      }
    }
    assert calls[..|calls|] == calls;
    LoadedIsShard(layer, full, s, F, calls);
  }

  lemma LoadKeeps(w13: seq<seq<Row>>, w2: seq<seq<Row>>, x: Expert, y: Expert, s: nat, I: nat, H: nat, F: nat, l: nat,
      which: Projection, m: nat, other: Projection)
    requires ExpertOk(x, H, F) && ExpertOk(y, H, F) && Column(s, I, I) <= F && l < |w13| == |w2| && m < |w13|
    requires |w13[l]| == |w13[m]| == 2 * I && (l == m ==> x == y)
    requires (l == m && which == other) || Loaded(w13, w2, y, s, I, H, F, m, other)
    ensures Loaded(w13[l := LoadedTop(w13[l], which, Weight(x, which), s, I)],
                   w2[l := LoadedDown(w2[l], which, Weight(x, which), s, I)], y, s, I, H, F, m, other)
  {
    hide Slice, ShardColumns;
  }

  lemma LoadedIsShard(layer: FusedExperts, full: seq<Expert>, s: nat, F: nat, calls: seq<(nat, Projection)>)
    requires layer.Valid() && |full| == layer.numExperts && ModelOk(full, layer.H, F)
    requires Column(s, layer.I, layer.I) <= F && AllLoaded(layer, full, s, F, calls)
    requires forall e: nat, which | e < |full| && which != OtherProj :: (e, which) in calls
    ensures layer.Shards() == RankLayer(full, s, layer.I, layer.H, F, layer.start, layer.numLocal)
  {
    hide Slice, ShardColumns, TopShards, DownShards;
    var I, L := layer.I, RankLayer(full, s, layer.I, layer.H, F, layer.start, layer.numLocal);
    assert |layer.w2| == layer.numLocal;
    forall l: nat | l < layer.numLocal
      ensures layer.w13[l] == L.w13[l] && layer.w2[l] == L.w2[l]
    {
      var e := layer.start + l;
      assert (e, GateProj) in calls && (e, UpProj) in calls && (e, DownProj) in calls;
      assert Loaded(layer.w13, layer.w2, full[e], s, I, layer.H, F, l, GateProj);
      assert Loaded(layer.w13, layer.w2, full[e], s, I, layer.H, F, l, UpProj);
      assert Loaded(layer.w13, layer.w2, full[e], s, I, layer.H, F, l, DownProj);
      assert layer.w13[l] == layer.w13[l][..I] + layer.w13[l][I..];
    }
  }

  // ---- Tensor parallelism: slices of a dot product -------------------------------------------

  function SliceDots(a: Row, b: Row, I: nat, n: nat): real
    requires |a| == |b| && Area(n, I) <= |a|
  {
    if n == 0 then 0.0
    else
      LastSlice(n, I);
      SliceDots(a, b, I, n - 1) + Dot(Slice(a, n - 1, I), Slice(b, n - 1, I))
  }

  lemma LastSlice(n: nat, I: nat)
    requires n > 0
    ensures Column(n - 1, I, I) == Area(n, I) && Area(n - 1, I) == Column(n - 1, I, 0)
    ensures Area(n - 1, I) + I == Area(n, I)
  {
    assert n * I == (n - 1) * I + I;
  }

  lemma {:induction false} SliceDotsIsDot(a: Row, b: Row, I: nat, n: nat)
    requires |a| == |b| && Area(n, I) <= |a|
    ensures SliceDots(a, b, I, n) == Dot(a[..Area(n, I)], b[..Area(n, I)])
  {
    if n > 0 {
      LastSlice(n, I);
      SliceDotsIsDot(a, b, I, n - 1);
      var lo, hi := Area(n - 1, I), Area(n, I);
      assert a[..hi] == a[..lo] + Slice(a, n - 1, I) && b[..hi] == b[..lo] + Slice(b, n - 1, I);
      DotConcat(a[..lo], b[..lo], Slice(a, n - 1, I), Slice(b, n - 1, I));
    }
  }

  /** The gated activations of the whole expert; a shard's are its slice. */
  function Activations(silu: real -> real, x: Expert, H: nat, F: nat, v: Row): (r: Row)
    requires ExpertOk(x, H, F) && |v| == H
    ensures |r| == F && forall j: nat | j < F :: r[j] == silu(Dot(v, x.gate[j])) * Dot(v, x.up[j])
  {
    ActivationsTo(silu, x, H, F, v, F)
  }

  function ActivationsTo(silu: real -> real, x: Expert, H: nat, F: nat, v: Row, n: nat): (r: Row)
    requires ExpertOk(x, H, F) && |v| == H && n <= F
    ensures |r| == n && forall j: nat | j < n :: r[j] == silu(Dot(v, x.gate[j])) * Dot(v, x.up[j])
  {
    if n == 0 then []
    else ActivationsTo(silu, x, H, F, v, n - 1) + [silu(Dot(v, x.gate[n - 1])) * Dot(v, x.up[n - 1])]
  }

  lemma ShardRow(silu: real -> real, x: Expert, s: nat, I: nat, H: nat, F: nat, v: Row, h: nat)
    requires ExpertOk(x, H, F) && Column(s, I, I) <= F && |v| == H && h < H
    ensures ExpertRow(silu, TopShard(x, s, I, H, F), DownShard(x, s, I, H, F), H, I, v)[h]
         == Dot(Slice(Activations(silu, x, H, F, v), s, I), Slice(x.down[h], s, I))
  {
    hide Dot, TopShard, DownShard, Activations, MatVec;
    var y := MatVec(TopShard(x, s, I, H, F), v);
    var mid, want := Gated(silu, y, I), Slice(Activations(silu, x, H, F, v), s, I);
    forall j: nat | j < I
      ensures mid[j] == want[j]
    {
      assert y[j] == Dot(v, x.gate[Column(s, I, j)]) && y[I + j] == Dot(v, x.up[Column(s, I, j)]);
      assert want[j] == Activations(silu, x, H, F, v)[Column(s, I, j)];
    }
    assert mid == want;
  }

  // ---- Sums over ranks -----------------------------------------------------------------------

  /** Cell `(i, h)` added up over `n` by `H` matrices. */
  function CellTotal(mats: seq<seq<Row>>, n: nat, H: nat, i: nat, h: nat): real
    requires i < n && h < H && forall q | 0 <= q < |mats| :: MatrixOk(mats[q], n, H)
  {
    if mats == [] then 0.0
    else
      var m := mats[|mats| - 1];
      assert MatrixOk(m, n, H);
      CellTotal(mats[..|mats| - 1], n, H, i, h) + m[i][h]
  }

  function ColumnTotal(mats: seq<seq<Row>>, n: nat, H: nat, from: nat, k: nat, h: nat): real
    requires from + k <= n && h < H && forall q | 0 <= q < |mats| :: MatrixOk(mats[q], n, H)
  {
    if mats == [] then 0.0
    else
      var m := mats[|mats| - 1];
      assert MatrixOk(m, n, H);
      ColumnTotal(mats[..|mats| - 1], n, H, from, k, h) + ColumnSum(m, from, k, h)
  }

  lemma {:induction false} ColumnTotalStep(mats: seq<seq<Row>>, n: nat, H: nat, from: nat, k: nat, h: nat)
    requires k > 0 && from + k <= n && h < H && forall q | 0 <= q < |mats| :: MatrixOk(mats[q], n, H)
    ensures ColumnTotal(mats, n, H, from, k, h)
         == ColumnTotal(mats, n, H, from, k - 1, h) + CellTotal(mats, n, H, from + k - 1, h)
  {
    if mats != [] {
      ColumnTotalStep(mats[..|mats| - 1], n, H, from, k, h);
      assert MatrixOk(mats[|mats| - 1], n, H);
    }
  }

  lemma {:induction false} ColumnTotalNone(mats: seq<seq<Row>>, n: nat, H: nat, from: nat, h: nat)
    requires from <= n && h < H && forall q | 0 <= q < |mats| :: MatrixOk(mats[q], n, H)
    ensures ColumnTotal(mats, n, H, from, 0, h) == 0.0
  {
    if mats != [] {
      ColumnTotalNone(mats[..|mats| - 1], n, H, from, h);
      assert MatrixOk(mats[|mats| - 1], n, H);
    }
  }

  /** Matrices that add up cell by cell add up in every column sum. */
  lemma {:induction false} TotalsAgree(mats: seq<seq<Row>>, whole: seq<Row>, n: nat, H: nat, from: nat, k: nat, h: nat)
    requires from + k <= n && h < H && MatrixOk(whole, n, H) && forall q | 0 <= q < |mats| :: MatrixOk(mats[q], n, H)
    requires forall i: nat | from <= i < from + k :: CellTotal(mats, n, H, i, h) == whole[i][h]
    ensures ColumnTotal(mats, n, H, from, k, h) == ColumnSum(whole, from, k, h)
  {
    if k == 0 {
      ColumnTotalNone(mats, n, H, from, h);
    } else {
      ColumnTotalStep(mats, n, H, from, k, h);
      TotalsAgree(mats, whole, n, H, from, k - 1, h);
    }
  }

  // ---- Expert parallelism: one owner per expert ----------------------------------------------

  datatype Setting = Setting(silu: real -> real, full: seq<Expert>, H: nat, I: nat, tp: nat, n: nat, ep: nat, b: Batch)

  /** `tp` slices of the intermediate size, `ep` ranks of `n` experts each. */
  ghost predicate SettingOk(c: Setting) {
    && ModelOk(c.full, c.H, Area(c.tp, c.I)) && |c.full| == Area(c.ep, c.n)
    && BatchOk(c.b, c.H) && Routed(c.b.ids, |c.full|)
  }

  lemma RankInside(c: Setting, s: nat, r: nat)
    requires s < c.tp && r < c.ep
    ensures Column(s, c.I, c.I) <= Area(c.tp, c.I) && Column(r, c.n, c.n) <= Area(c.ep, c.n)
    ensures Column(r, c.n, c.n) == Column(r, c.n, 0) + c.n
  {
    TokenRows(s, c.tp, c.I);
    TokenRows(r, c.ep, c.n);
  }

  /** The rows of rank `(s, r)`. */
  function PartRows(c: Setting, s: nat, r: nat): (rows: seq<Row>)
    requires SettingOk(c) && s < c.tp && r < c.ep
    ensures MatrixOk(rows, |c.b.ids|, c.H)
  {
    RankInside(c, s, r);
    RankRows(c.silu, c.full, s, c.I, c.H, Area(c.tp, c.I), Column(r, c.n, 0), c.n, c.b)
  }

  /** The rows tensor slice `s` would compute with every expert local. */
  function SliceRows(c: Setting, s: nat): (rows: seq<Row>)
    requires SettingOk(c) && s < c.tp
    ensures MatrixOk(rows, |c.b.ids|, c.H)
  {
    TokenRows(s, c.tp, c.I);
    RankRows(c.silu, c.full, s, c.I, c.H, Area(c.tp, c.I), 0, |c.full|, c.b)
  }

  /** The rows of a single rank with all weights. */
  function WholeRows(c: Setting): (rows: seq<Row>)
    requires SettingOk(c)
    ensures MatrixOk(rows, |c.b.ids|, c.H)
  {
    RankRows(c.silu, c.full, 0, Area(c.tp, c.I), c.H, Area(c.tp, c.I), 0, |c.full|, c.b)
  }

  function PartsOf(c: Setting, s: nat, ranks: nat): (mats: seq<seq<Row>>)
    requires SettingOk(c) && s < c.tp && ranks <= c.ep
    ensures |mats| == ranks && forall q | 0 <= q < ranks :: MatrixOk(mats[q], |c.b.ids|, c.H)
  {
    hide *;
    if ranks == 0 then [] else PartsOf(c, s, ranks - 1) + [PartRows(c, s, ranks - 1)]
  }

  function SlicesOf(c: Setting, slices: nat): (mats: seq<seq<Row>>)
    requires SettingOk(c) && slices <= c.tp
    ensures |mats| == slices && forall q | 0 <= q < slices :: MatrixOk(mats[q], |c.b.ids|, c.H)
  {
    hide *;
    if slices == 0 then [] else SlicesOf(c, slices - 1) + [SliceRows(c, slices - 1)]
  }

  lemma PairFacts(c: Setting, i: nat)
    requires SettingOk(c) && i < |c.b.ids|
    ensures c.b.K > 0 && 0 <= i / c.b.K < |c.b.x| && |c.b.x[i / c.b.K]| == c.H
    ensures c.b.ids[i] < |c.full| && ExpertOk(c.full[c.b.ids[i]], c.H, Area(c.tp, c.I)) && i < |c.b.weights|
  {
    TokenOf(i, |c.b.x|, c.b.K);
  }

  lemma PairFacts2(c: Setting, i: nat, h: nat)
    requires SettingOk(c) && i < |c.b.ids| && h < c.H
    ensures c.b.ids[i] < |c.full| && h < |c.full[c.b.ids[i]].down| && |c.full[c.b.ids[i]].down[h]| == Area(c.tp, c.I)
  {
    assert ExpertOk(c.full[c.b.ids[i]], c.H, Area(c.tp, c.I));
  }

  /** Both kinds of rows are the same expert's row, scaled by the pair's weight. */
  lemma OwnedRow(c: Setting, s: nat, start: nat, n: nat, i: nat)
    requires SettingOk(c) && s < c.tp && Column(s, c.I, c.I) <= Area(c.tp, c.I) && start + n <= |c.full|
    requires i < |c.b.ids|
    ensures 0 <= i / c.b.K < |c.b.x|
    ensures start <= c.b.ids[i] < start + n ==>
              RankRow(c.silu, c.full, s, c.I, c.H, Area(c.tp, c.I), start, n, c.b, i)
              == Scale(ExpertRow(c.silu, TopShard(c.full[c.b.ids[i]], s, c.I, c.H, Area(c.tp, c.I)),
                                 DownShard(c.full[c.b.ids[i]], s, c.I, c.H, Area(c.tp, c.I)), c.H, c.I,
                                     c.b.x[i / c.b.K]),
                       c.b.weights[i])
    ensures !(start <= c.b.ids[i] < start + n) ==>
              RankRow(c.silu, c.full, s, c.I, c.H, Area(c.tp, c.I), start, n, c.b, i) == Zeros(c.H)
  {
    hide TopShard, DownShard, Scale, ExpertRow;
    TokenOf(i, |c.b.x|, c.b.K);
  }

  /** Over the ranks seen so far the cell is the slice's cell if its owner was among them. */
  lemma {:induction false} EpCells(c: Setting, s: nat, ranks: nat, i: nat, h: nat)
    requires SettingOk(c) && s < c.tp && ranks <= c.ep && i < |c.b.ids| && h < c.H
    ensures CellTotal(PartsOf(c, s, ranks), |c.b.ids|, c.H, i, h)
         == if c.b.ids[i] < Area(ranks, c.n) then SliceRows(c, s)[i][h] else 0.0
  {
    hide RankRow, ExpertRow, Scale, TopShard, DownShard;
    if ranks > 0 {
      var r := ranks - 1;
      EpCells(c, s, r, i, h);
      assert PartsOf(c, s, ranks)[..r] == PartsOf(c, s, r);
      RankInside(c, s, r);
      LastSlice(ranks, c.n);
      OwnedRow(c, s, Column(r, c.n, 0), c.n, i);
      OwnedRow(c, s, 0, |c.full|, i);
      assert PartRows(c, s, r)[i]
          == RankRow(c.silu, c.full, s, c.I, c.H, Area(c.tp, c.I), Column(r, c.n, 0), c.n, c.b, i);
      assert SliceRows(c, s)[i] == RankRow(c.silu, c.full, s, c.I, c.H, Area(c.tp, c.I), 0, |c.full|, c.b, i);
    }
  }

  /** Over the slices seen so far the cell is a growing part of the whole dot product. */
  lemma {:induction false} TpCells(c: Setting, slices: nat, i: nat, h: nat)
    requires SettingOk(c) && slices <= c.tp && i < |c.b.ids| && h < c.H
    ensures i < |c.b.weights|
    ensures CellTotal(SlicesOf(c, slices), |c.b.ids|, c.H, i, h) == SlicesCell(c, slices, i, h) * c.b.weights[i]
  {
    hide *;
    PairFacts(c, i);
    if slices == 0 {
      NoSlices(c, i, h, c.b.weights[i]);
    } else {
      TpCells(c, slices - 1, i, h);
      SlicesTotalStep(c, slices, i, h);
      SliceCell(c, slices - 1, i, h);
      SlicesCellStep(c, slices, i, h);
      Distribute(SlicesCell(c, slices, i, h), SlicesCell(c, slices - 1, i, h), PartDot(c, slices - 1, i, h),
          c.b.weights[i]);
    }
  }

  /** Slice `s` of the dot product for output `h` of pair `i`'s expert. */
  function PartDot(c: Setting, s: nat, i: nat, h: nat): real
    requires SettingOk(c) && s < c.tp && i < |c.b.ids| && h < c.H
  {
    PairFacts(c, i);
    PairFacts2(c, i, h);
    TokenRows(s, c.tp, c.I);
    var x := c.full[c.b.ids[i]];
    Dot(Slice(Activations(c.silu, x, c.H, Area(c.tp, c.I), c.b.x[i / c.b.K]), s, c.I), Slice(x.down[h], s, c.I))
  }

  lemma SlicesTotalStep(c: Setting, slices: nat, i: nat, h: nat)
    requires SettingOk(c) && 0 < slices <= c.tp && i < |c.b.ids| && h < c.H
    ensures CellTotal(SlicesOf(c, slices), |c.b.ids|, c.H, i, h)
         == CellTotal(SlicesOf(c, slices - 1), |c.b.ids|, c.H, i, h) + SliceRows(c, slices - 1)[i][h]
  {
    hide SliceRows, SettingOk;
    assert SlicesOf(c, slices)[..slices - 1] == SlicesOf(c, slices - 1);
  }

  lemma SliceCell(c: Setting, s: nat, i: nat, h: nat)
    requires SettingOk(c) && s < c.tp && i < |c.b.ids| && h < c.H
    ensures i < |c.b.weights| && SliceRows(c, s)[i][h] == PartDot(c, s, i, h) * c.b.weights[i]
  {
    hide RankRow, ExpertRow, TopShard, DownShard, Activations, Dot, SliceRows;
    PairFacts(c, i);
    PairFacts2(c, i, h);
    TokenRows(s, c.tp, c.I);
    OwnedRow(c, s, 0, |c.full|, i);
    SliceRow(c, s, i);
    ShardRow(c.silu, c.full[c.b.ids[i]], s, c.I, c.H, Area(c.tp, c.I), c.b.x[i / c.b.K], h);
  }

  lemma SlicesCellStep(c: Setting, slices: nat, i: nat, h: nat)
    requires SettingOk(c) && 0 < slices <= c.tp && i < |c.b.ids| && h < c.H
    ensures SlicesCell(c, slices, i, h) == SlicesCell(c, slices - 1, i, h) + PartDot(c, slices - 1, i, h)
  {
    hide Activations, Dot;
    PairFacts(c, i);
    PairFacts2(c, i, h);
    MulMonotone(slices, c.tp, c.I);
    TokenRows(slices - 1, c.tp, c.I);
    var x := c.full[c.b.ids[i]];
    SliceDotsStep(Activations(c.silu, x, c.H, Area(c.tp, c.I), c.b.x[i / c.b.K]), x.down[h], c.I, slices);
  }

  /** Output `h` of pair `i`'s expert over the first `slices` slices, before the pair's weight. */
  function SlicesCell(c: Setting, slices: nat, i: nat, h: nat): real
    requires SettingOk(c) && slices <= c.tp && i < |c.b.ids| && h < c.H
  {
    PairFacts(c, i);
    PairFacts2(c, i, h);
    MulMonotone(slices, c.tp, c.I);
    var x := c.full[c.b.ids[i]];
    SliceDots(Activations(c.silu, x, c.H, Area(c.tp, c.I), c.b.x[i / c.b.K]), x.down[h], c.I, slices)
  }

  lemma NoSlices(c: Setting, i: nat, h: nat, w: real)
    requires SettingOk(c) && i < |c.b.ids| && h < c.H
    ensures CellTotal(SlicesOf(c, 0), |c.b.ids|, c.H, i, h) == SlicesCell(c, 0, i, h) * w
  {
  }

  lemma SliceDotsStep(a: Row, b: Row, I: nat, n: nat)
    requires |a| == |b| && n > 0 && Area(n, I) <= |a|
    ensures Column(n - 1, I, I) == Area(n, I) && Area(n - 1, I) <= |a|
    ensures SliceDots(a, b, I, n) == SliceDots(a, b, I, n - 1) + Dot(Slice(a, n - 1, I), Slice(b, n - 1, I))
  {
    LastSlice(n, I);
  }

  lemma Distribute(sum: real, a: real, d: real, w: real)
    requires sum == a + d
    ensures sum * w == a * w + d * w
  {
  }

  lemma SliceRow(c: Setting, s: nat, i: nat)
    requires SettingOk(c) && s < c.tp && i < |c.b.ids| && Column(s, c.I, c.I) <= Area(c.tp, c.I)
    ensures SliceRows(c, s)[i] == RankRow(c.silu, c.full, s, c.I, c.H, Area(c.tp, c.I), 0, |c.full|, c.b, i)
  {
    hide RankRow;
  }

  lemma WholeRow(c: Setting, i: nat)
    requires SettingOk(c) && i < |c.b.ids|
    ensures WholeRows(c)[i] == RankRow(c.silu, c.full, 0, Area(c.tp, c.I), c.H, Area(c.tp, c.I), 0, |c.full|, c.b, i)
  {
    hide RankRow;
  }

  lemma WholeCell(c: Setting, i: nat, h: nat)
    requires SettingOk(c) && i < |c.b.ids| && h < c.H
    ensures CellTotal(SlicesOf(c, c.tp), |c.b.ids|, c.H, i, h) == WholeRows(c)[i][h]
  {
    hide *;
    TpCells(c, c.tp, i, h);
    PairFacts(c, i);
    AllSlicesIsWhole(c, i, h);
  }

  lemma AllSlicesIsWhole(c: Setting, i: nat, h: nat)
    requires SettingOk(c) && i < |c.b.ids| && h < c.H
    ensures i < |c.b.weights| && WholeRows(c)[i][h] == SlicesCell(c, c.tp, i, h) * c.b.weights[i]
  {
    hide RankRow, ExpertRow, TopShard, DownShard, Activations, Dot, SliceDots, WholeRows;
    PairFacts(c, i);
    PairFacts2(c, i, h);
    var F, x := Area(c.tp, c.I), c.full[c.b.ids[i]];
    var a := Activations(c.silu, x, c.H, F, c.b.x[i / c.b.K]);
    SliceDotsIsDot(a, x.down[h], c.I, c.tp);
    assert a[..F] == a && x.down[h][..F] == x.down[h];
    WholeRow(c, i);
    WholeOwned(c, i);
    ShardRow(c.silu, x, 0, F, c.H, F, c.b.x[i / c.b.K], h);
    assert Slice(a, 0, F) == a && Slice(x.down[h], 0, F) == x.down[h];
  }

  lemma WholeOwned(c: Setting, i: nat)
    requires SettingOk(c) && i < |c.b.ids|
    ensures 0 <= i / c.b.K < |c.b.x|
    ensures var x, F := c.full[c.b.ids[i]], Area(c.tp, c.I);
            RankRow(c.silu, c.full, 0, F, c.H, F, 0, |c.full|, c.b, i)
            == Scale(ExpertRow(c.silu, TopShard(x, 0, F, c.H, F), DownShard(x, 0, F, c.H, F), c.H, F, c.b.x[i / c.b.K]),
                c.b.weights[i])
  {
    hide TopShard, DownShard, Scale, ExpertRow;
    TokenOf(i, |c.b.x|, c.b.K);
  }

  // ---- The all-reduces -----------------------------------------------------------------------

  /** What each rank of tensor slice `s` computed: `outs[r]` is rank `(s, r)`'s partial output. */
  ghost predicate SliceOuts(c: Setting, s: nat, outs: seq<seq<Row>>)
    requires SettingOk(c) && s < c.tp
  {
    && |outs| == c.ep
    && forall r: nat | r < c.ep :: IsPart(c, s, r, outs[r])
  }

  ghost predicate IsPart(c: Setting, s: nat, r: nat, out: seq<Row>)
    requires SettingOk(c) && s < c.tp && r < c.ep
  {
    RankInside(c, s, r);
    IsPartial(c.silu, c.full, s, c.I, c.H, Area(c.tp, c.I), Column(r, c.n, 0), c.n, c.b, out)
  }

  /** The single rank that holds every expert unsliced. */
  ghost predicate IsWhole(c: Setting, out: seq<Row>)
    requires SettingOk(c)
  {
    IsPartial(c.silu, c.full, 0, Area(c.tp, c.I), c.H, Area(c.tp, c.I), 0, |c.full|, c.b, out)
  }

  /** An all-reduce: the cell added up over the group's tensors. */
  function AllReduce(outs: seq<seq<Row>>, t: nat, h: nat): real
    requires forall q | 0 <= q < |outs| :: t < |outs[q]| && h < |outs[q][t]|
  {
    if outs == [] then 0.0 else AllReduce(outs[..|outs| - 1], t, h) + outs[|outs| - 1][t][h]
  }

  lemma {:induction false} EpAllReduce(c: Setting, s: nat, outs: seq<seq<Row>>, ranks: nat, t: nat, h: nat)
    requires SettingOk(c) && s < c.tp && SliceOuts(c, s, outs) && ranks <= c.ep && t < |c.b.x| && h < c.H
    ensures Column(t, c.b.K, c.b.K) <= |c.b.ids|
    ensures forall q | 0 <= q < |outs[..ranks]| :: t < |outs[..ranks][q]| && h < |outs[..ranks][q][t]|
    ensures AllReduce(outs[..ranks], t, h)
         == ColumnTotal(PartsOf(c, s, ranks), |c.b.ids|, c.H, Column(t, c.b.K, 0), c.b.K, h)
  {
    hide SettingOk, PartRows, IsPart, ColumnSum;
    TokensFit(c, t);
    forall q: nat | q < c.ep
      ensures t < |outs[q]| && h < |outs[q][t]|
      ensures MatrixOk(PartRows(c, s, q), |c.b.ids|, c.H)
      ensures OutCell(PartRows(c, s, q), t, c.b.K, h, outs[q][t][h])
    {
      PartCell(c, s, q, outs[q], t, h);
    }
    if ranks > 0 {
      EpAllReduce(c, s, outs, ranks - 1, t, h);
      assert outs[..ranks][..ranks - 1] == outs[..ranks - 1];
      assert PartsOf(c, s, ranks)[..ranks - 1] == PartsOf(c, s, ranks - 1);
    }
  }

  lemma TokensFit(c: Setting, t: nat)
    requires SettingOk(c) && t < |c.b.x|
    ensures Column(t, c.b.K, c.b.K) <= |c.b.ids| && Column(t, c.b.K, 0) + c.b.K == Column(t, c.b.K, c.b.K) && c.b.K > 0
  {
    TokenRows(t, |c.b.x|, c.b.K);
  }

  lemma PartCell(c: Setting, s: nat, r: nat, out: seq<Row>, t: nat, h: nat)
    requires SettingOk(c) && s < c.tp && r < c.ep && IsPart(c, s, r, out) && t < |c.b.x| && h < c.H
    ensures t < |out| && h < |out[t]| && OutCell(PartRows(c, s, r), t, c.b.K, h, out[t][h])
  {
    hide PairOuts, OutCell;
    RankInside(c, s, r);
  }

  /** Reducing over the expert group gives what the slice computes with every expert local. */
  lemma EpReduces(c: Setting, s: nat, outs: seq<seq<Row>>, t: nat, h: nat)
    requires SettingOk(c) && s < c.tp && SliceOuts(c, s, outs) && t < |c.b.x| && h < c.H
    ensures forall q | 0 <= q < |outs| :: t < |outs[q]| && h < |outs[q][t]|
    ensures OutCell(SliceRows(c, s), t, c.b.K, h, AllReduce(outs, t, h))
  {
    hide PartRows, SliceRows, SettingOk, CellTotal, ColumnTotal, ColumnSum, AllReduce, IsPart;
    EpAllReduce(c, s, outs, c.ep, t, h);
    assert outs[..c.ep] == outs;
    TokensFit(c, t);
    forall i: nat | i < |c.b.ids|
      ensures CellTotal(PartsOf(c, s, c.ep), |c.b.ids|, c.H, i, h) == SliceRows(c, s)[i][h]
    {
      EpCells(c, s, c.ep, i, h);
      PairFacts(c, i);
      AllExperts(c);
    }
    TotalsAgree(PartsOf(c, s, c.ep), SliceRows(c, s), |c.b.ids|, c.H, Column(t, c.b.K, 0), c.b.K, h);
    CellIsSum(SliceRows(c, s), t, c.b.K, h, AllReduce(outs, t, h));
  }

  lemma AllExperts(c: Setting)
    requires SettingOk(c)
    ensures |c.full| == Area(c.ep, c.n)
  {
  }

  /** Both all-reduces: first over the expert group of each slice, then over the slices. */
  function Combined(outs: seq<seq<seq<Row>>>, t: nat, h: nat): real
    requires forall s, q | 0 <= s < |outs| && 0 <= q < |outs[s]| :: t < |outs[s][q]| && h < |outs[s][q][t]|
  {
    if outs == [] then 0.0 else Combined(outs[..|outs| - 1], t, h) + AllReduce(outs[|outs| - 1], t, h)
  }

  ghost predicate AllOuts(c: Setting, outs: seq<seq<seq<Row>>>)
    requires SettingOk(c)
  {
    |outs| == c.tp && forall s: nat | s < c.tp :: SliceOuts(c, s, outs[s])
  }

  lemma {:induction false} CombinedTotal(c: Setting, outs: seq<seq<seq<Row>>>, slices: nat, t: nat, h: nat)
    requires SettingOk(c) && AllOuts(c, outs) && slices <= c.tp && t < |c.b.x| && h < c.H
    ensures Column(t, c.b.K, c.b.K) <= |c.b.ids|
    ensures forall s, q | 0 <= s < |outs| && 0 <= q < |outs[s]| :: t < |outs[s][q]| && h < |outs[s][q][t]|
    ensures Combined(outs[..slices], t, h)
         == ColumnTotal(SlicesOf(c, slices), |c.b.ids|, c.H, Column(t, c.b.K, 0), c.b.K, h)
  {
    hide SettingOk, SliceRows, SliceOuts, ColumnSum, AllReduce, MatrixOk;
    TokensFit(c, t);
    forall s: nat | s < |outs|
      ensures forall q | 0 <= q < |outs[s]| :: t < |outs[s][q]| && h < |outs[s][q][t]|
      ensures OutCell(SliceRows(c, s), t, c.b.K, h, AllReduce(outs[s], t, h))
    {
      EpReduces(c, s, outs[s], t, h);
    }
    if slices > 0 {
      CombinedTotal(c, outs, slices - 1, t, h);
      assert outs[..slices][..slices - 1] == outs[..slices - 1];
      assert SlicesOf(c, slices)[..slices - 1] == SlicesOf(c, slices - 1);
    }
  }

  /** The combined output of all ranks is the output of one rank holding every weight. */
  lemma RanksAddUp(c: Setting, outs: seq<seq<seq<Row>>>, whole: seq<Row>, t: nat, h: nat)
    requires SettingOk(c) && AllOuts(c, outs) && IsWhole(c, whole) && t < |c.b.x| && h < c.H
    ensures forall s, q | 0 <= s < |outs| && 0 <= q < |outs[s]| :: t < |outs[s][q]| && h < |outs[s][q][t]|
    ensures t < |whole| && h < |whole[t]| && Combined(outs, t, h) == whole[t][h]
  {
    hide SettingOk, SliceRows, WholeRows, AllOuts, CellTotal, ColumnTotal, ColumnSum, Combined, IsWhole;
    CombinedTotal(c, outs, c.tp, t, h);
    OutsLength(c, outs);
    assert outs[..c.tp] == outs;
    TokensFit(c, t);
    forall i: nat | i < |c.b.ids|
      ensures CellTotal(SlicesOf(c, c.tp), |c.b.ids|, c.H, i, h) == WholeRows(c)[i][h]
    {
      WholeCell(c, i, h);
    }
    TotalsAgree(SlicesOf(c, c.tp), WholeRows(c), |c.b.ids|, c.H, Column(t, c.b.K, 0), c.b.K, h);
    WholeOutput(c, whole, t, h);
  }

  lemma OutsLength(c: Setting, outs: seq<seq<seq<Row>>>)
    requires SettingOk(c) && AllOuts(c, outs)
    ensures |outs| == c.tp
  {
  }

  lemma WholeOutput(c: Setting, whole: seq<Row>, t: nat, h: nat)
    requires SettingOk(c) && IsWhole(c, whole) && t < |c.b.x| && h < c.H
    ensures t < |whole| && h < |whole[t]| && OutCell(WholeRows(c), t, c.b.K, h, whole[t][h])
  {
    hide PairOuts, OutCell;
  }
}
