/** The expert layer object of one rank: its expert map, its weight shards, its growing workspace, and
    the fused and the eager forward passes, which compute the same output. */
module ExpertLayer {
  import opened Pages
  import opened MoeAlignment
  import opened TileSwizzle
  import opened RealVectors
  import opened GroupedGemm
  import opened MoeForward

  /** Local row of each expert, -1 when another rank owns it. */
  function ExpertMap(numExperts: nat, start: nat, numLocal: nat): (r: seq<int>)
    ensures |r| == numExperts
    ensures forall e | 0 <= e < numExperts :: r[e] == if start <= e < start + numLocal then e - start else -1
  {
    if numExperts == 0 then []
    else
      var e := numExperts - 1;
      ExpertMap(e, start, numLocal) + [if start <= e < start + numLocal then e - start else -1]
  }

  lemma MapIsLocal(numExperts: nat, start: nat, numLocal: nat, ids: seq<nat>)
    requires Routed(ids, numExperts)
    ensures LocalOk(ExpertsOf(ExpertMap(numExperts, start, numLocal), ids), numLocal)
  {
  }

  lemma ShardsFit(numExperts: nat, start: nat, numLocal: nat, epSize: nat, epRank: nat)
    requires epSize > 0 && epRank < epSize && numLocal == numExperts / epSize && numExperts % epSize == 0
    requires start == epRank * numLocal
    ensures 0 <= start && start + numLocal <= numExperts
  {
    MulMonotone(epRank + 1, epSize, numLocal);
    assert (epRank + 1) * numLocal == epRank * numLocal + numLocal;
    assert numExperts == numExperts / epSize * epSize + numExperts % epSize;
  }

  /** The workspace holds `c1` alone, or `c2` followed by `c3`. */
  lemma Regions(tk: nat, I: nat, H: nat)
    ensures Area(tk, 2 * I) <= WorkspaceSize(tk, I, H)
    ensures Area(tk, I) + Area(tk, H) <= WorkspaceSize(tk, I, H)
  {
    var m := if 2 * I > I + H then 2 * I else I + H;
    assert tk * m == tk * (2 * I) + tk * (m - 2 * I);
    assert tk * m == tk * I + tk * H + tk * (m - I - H);
  }

  function WorkspaceSize(tk: nat, I: nat, H: nat): nat {
    Area(tk, if 2 * I > I + H then 2 * I else I + H)
  }

  function NatDiv(a: nat, b: nat): nat
    requires b > 0
  {
    a / b
  }

  function NatTimes(a: nat, b: nat): nat {
    a * b
  }

  /** Fresh weights: their values do not matter before loading. */
  function BlankMatrix(rows: nat, cols: nat): (r: seq<Row>)
    ensures MatrixOk(r, rows, cols)
  {
    if rows == 0 then [] else BlankMatrix(rows - 1, cols) + [Zeros(cols)]
  }

  function Blank(n: nat, rows: nat, cols: nat): (r: seq<seq<Row>>)
    ensures |r| == n && forall e | 0 <= e < n :: MatrixOk(r[e], rows, cols)
  {
    if n == 0 then [] else Blank(n - 1, rows, cols) + [BlankMatrix(rows, cols)]
  }

  // ---- Loading a shard -----------------------------------------------------------------------

  /** This rank's `I` of the entries. */
  function Slice<T>(s: seq<T>, rank: nat, I: nat): (r: seq<T>)
    requires Column(rank, I, I) <= |s|
    ensures |r| == I
  {
    var lo := Column(rank, I, 0);
    s[lo..lo + I]
  }

  function ShardColumns(m: seq<Row>, rank: nat, I: nat): (r: seq<Row>)
    requires forall k | 0 <= k < |m| :: Column(rank, I, I) <= |m[k]|
    ensures |r| == |m| && forall k | 0 <= k < |m| :: r[k] == Slice(m[k], rank, I)
  {
    if m == [] then []
    else ShardColumns(m[..|m| - 1], rank, I) + [Slice(m[|m| - 1], rank, I)]
  }

  datatype Projection = GateProj | UpProj | DownProj | OtherProj

  /** The gate and up shards are this rank's rows, the down shard this rank's columns. */
  function LoadedTop(w13: seq<Row>, which: Projection, m: seq<Row>, rank: nat, I: nat): seq<Row>
    requires |w13| == 2 * I && (which == GateProj || which == UpProj ==> Column(rank, I, I) <= |m|)
  {
    match which
    case GateProj => Slice(m, rank, I) + w13[I..]
    case UpProj => w13[..I] + Slice(m, rank, I)
    case _ => w13
  }

  function LoadedDown(w2: seq<Row>, which: Projection, m: seq<Row>, rank: nat, I: nat): seq<Row>
    requires which == DownProj ==> forall k | 0 <= k < |m| :: Column(rank, I, I) <= |m[k]|
  {
    if which == DownProj then ShardColumns(m, rank, I) else w2
  }

  // ---- The eager sum -------------------------------------------------------------------------

  /** Pairs whose contribution the eager loops have added before pair `cur` of expert `e`. */
  predicate Added(ids: seq<nat>, start: nat, e: nat, cur: nat, i: nat)
    requires i < |ids|
  {
    start <= ids[i] < e || (ids[i] == e && i < cur)
  }

  function AddedSum(rows: seq<Row>, ids: seq<nat>, start: nat, e: nat, cur: nat, from: nat, n: nat, h: nat): real
    requires |rows| == |ids| && from + n <= |rows| && forall i | 0 <= i < |rows| :: h < |rows[i]|
  {
    if n == 0 then 0.0
    else
      var last := if Added(ids, start, e, cur, from + n - 1) then rows[from + n - 1][h] else 0.0;
      AddedSum(rows, ids, start, e, cur, from, n - 1, h) + last
  }

  lemma {:induction false} AddedOne(rows: seq<Row>, ids: seq<nat>, start: nat, e: nat, cur: nat, from: nat, n: nat,
      h: nat)
    requires |rows| == |ids| && from + n <= |rows| && forall i | 0 <= i < |rows| :: h < |rows[i]|
    requires cur < |ids| && start <= e
    ensures AddedSum(rows, ids, start, e, cur + 1, from, n, h) == AddedSum(rows, ids, start, e, cur, from, n, h)
          + if ids[cur] == e && from <= cur < from + n then rows[cur][h] else 0.0
  {
    if n > 0 {
      AddedOne(rows, ids, start, e, cur, from, n - 1, h);
    }
  }

  lemma {:induction false} AddedNext(rows: seq<Row>, ids: seq<nat>, start: nat, e: nat, from: nat, n: nat, h: nat)
    requires |rows| == |ids| && from + n <= |rows| && forall i | 0 <= i < |rows| :: h < |rows[i]|
    requires start <= e
    ensures AddedSum(rows, ids, start, e + 1, 0, from, n, h) == AddedSum(rows, ids, start, e, |ids|, from, n, h)
  {
    if n > 0 {
      AddedNext(rows, ids, start, e, from, n - 1, h);
    }
  }

  lemma {:induction false} NoneAdded(rows: seq<Row>, ids: seq<nat>, start: nat, from: nat, n: nat, h: nat)
    requires |rows| == |ids| && from + n <= |rows| && forall i | 0 <= i < |rows| :: h < |rows[i]|
    ensures AddedSum(rows, ids, start, start, 0, from, n, h) == 0.0
  {
    if n > 0 {
      NoneAdded(rows, ids, start, from, n - 1, h);
    }
  }

  /** Once every local expert is done, only zero rows were left out. */
  lemma {:induction false} AllAdded(rows: seq<Row>, ids: seq<nat>, start: nat, end: nat, from: nat, n: nat, h: nat)
    requires |rows| == |ids| && from + n <= |rows| && forall i | 0 <= i < |rows| :: h < |rows[i]|
    requires forall i | 0 <= i < |ids| && !(start <= ids[i] < end) :: rows[i][h] == 0.0
    ensures AddedSum(rows, ids, start, end, 0, from, n, h) == ColumnSum(rows, from, n, h)
  {
    if n > 0 {
      AllAdded(rows, ids, start, end, from, n - 1, h);
    }
  }

  /** Cell `(t, h)` holds the contributions added so far. */
  predicate CellAdded(rows: seq<Row>, ids: seq<nat>, start: nat, e: nat, cur: nat, t: nat, K: nat, h: nat, v: real) {
    && |rows| == |ids| && Column(t, K, K) <= |rows| && (forall i | 0 <= i < |rows| :: h < |rows[i]|)
    && v == AddedSum(rows, ids, start, e, cur, Column(t, K, 0), K, h)
  }

  lemma CellBump(rows: seq<Row>, ids: seq<nat>, start: nat, e: nat, cur: nat, t: nat, K: nat, h: nat, v: real)
    requires CellAdded(rows, ids, start, e, cur, t, K, h, v) && cur < |ids| && start <= e && K > 0
    ensures CellAdded(rows, ids, start, e, cur + 1, t, K, h, if ids[cur] == e && t == cur / K then v + rows[cur][h]
        else v)
  {
    AddedOne(rows, ids, start, e, cur, Column(t, K, 0), K, h);
    assert cur == cur / K * K + cur % K;
    if Column(t, K, 0) <= cur < Column(t, K, 0) + K {
      DivModUnique(cur, K, t, cur - Column(t, K, 0));
    }
  }

  lemma CellNext(rows: seq<Row>, ids: seq<nat>, start: nat, e: nat, t: nat, K: nat, h: nat, v: real)
    requires CellAdded(rows, ids, start, e, |ids|, t, K, h, v) && start <= e
    ensures CellAdded(rows, ids, start, e + 1, 0, t, K, h, v)
  {
    AddedNext(rows, ids, start, e, Column(t, K, 0), K, h);
  }

  /** An expert no pair was routed to adds nothing. */
  lemma {:induction false} AbsentAddsNothing(rows: seq<Row>, ids: seq<nat>, start: nat, e: nat, from: nat, n: nat,
      h: nat)
    requires |rows| == |ids| && from + n <= |rows| && forall i | 0 <= i < |rows| :: h < |rows[i]|
    requires e !in ids
    ensures AddedSum(rows, ids, start, e, |ids|, from, n, h) == AddedSum(rows, ids, start, e, 0, from, n, h)
  {
    if n > 0 {
      AbsentAddsNothing(rows, ids, start, e, from, n - 1, h);
    }
  }

  lemma CellAbsent(rows: seq<Row>, ids: seq<nat>, start: nat, e: nat, t: nat, K: nat, h: nat, v: real)
    requires CellAdded(rows, ids, start, e, 0, t, K, h, v) && e !in ids
    ensures CellAdded(rows, ids, start, e, |ids|, t, K, h, v)
  {
    AbsentAddsNothing(rows, ids, start, e, Column(t, K, 0), K, h);
  }

  lemma CellStarts(rows: seq<Row>, ids: seq<nat>, start: nat, t: nat, T: nat, K: nat, h: nat)
    requires |rows| == |ids| == Area(T, K) && t < T && forall i | 0 <= i < |rows| :: h < |rows[i]|
    ensures CellAdded(rows, ids, start, start, 0, t, K, h, 0.0)
  {
    TokenRows(t, T, K);
    NoneAdded(rows, ids, start, Column(t, K, 0), K, h);
  }

  lemma CellEnds(rows: seq<Row>, ids: seq<nat>, start: nat, end: nat, t: nat, K: nat, h: nat, v: real)
    requires CellAdded(rows, ids, start, end, 0, t, K, h, v)
    requires forall i | 0 <= i < |ids| && !(start <= ids[i] < end) :: rows[i][h] == 0.0
    ensures OutCell(rows, t, K, h, v)
  {
    AllAdded(rows, ids, start, end, Column(t, K, 0), K, h);
  }

  predicate CellsAdded(cells: seq<Row>, rows: seq<Row>, ids: seq<nat>, start: nat, e: nat, cur: nat, K: nat, H: nat) {
    forall t: nat | t < |cells| :: |cells[t]| == H &&
      forall h: nat | h < H :: CellAdded(rows, ids, start, e, cur, t, K, h, cells[t][h])
  }

  function AddRows(a: Row, b: Row): (r: Row)
    requires |a| == |b|
    ensures |r| == |a| && forall h | 0 <= h < |a| :: r[h] == a[h] + b[h]
  {
    if a == [] then [] else AddRows(a[..|a| - 1], b[..|b| - 1]) + [a[|a| - 1] + b[|b| - 1]]
  }

  lemma CellsBump(cells: seq<Row>, rows: seq<Row>, ids: seq<nat>, start: nat, e: nat, cur: nat, K: nat, H: nat, y: Row)
    requires CellsAdded(cells, rows, ids, start, e, cur, K, H) && cur < |ids| == |rows| && start <= e && K > 0
    requires cur / K < |cells| && |y| == H
    requires rows[cur] == y
    ensures ids[cur] == e ==>
        CellsAdded(cells[cur / K := AddRows(cells[cur / K], y)], rows, ids, start, e, cur + 1, K, H)
    ensures ids[cur] != e ==> CellsAdded(cells, rows, ids, start, e, cur + 1, K, H)
  {
    hide CellAdded;
    var now := if ids[cur] == e then cells[cur / K := AddRows(cells[cur / K], y)] else cells;
    forall t: nat, h: nat | t < |cells| && h < H
      ensures CellAdded(rows, ids, start, e, cur + 1, t, K, h, now[t][h])
    {
      CellBump(rows, ids, start, e, cur, t, K, h, cells[t][h]);
    }
  }

  // ---- The layer object ----------------------------------------------------------------------

  /** Align, first GEMM into `c1`, gate into `c2`, second GEMM into `c3`, reduce.  The buffers are the
      layer's regions of one workspace: `c1` shares its cells with `c2` and `c3`. */
  method FusedExpertsTriton(
    silu: real -> real, L: Layer, b: Batch, emap: seq<int>, hidden: array<real>, ws: array<real>)
    returns (out: seq<Row>)
    requires LayerOk(L) && BatchOk(b, L.H) && Routed(b.ids, |emap|) && LocalOk(ExpertsOf(emap, b.ids), |L.w13|)
    requires hidden != ws && Holds(hidden[..], 0, L.H, b.x) && ws.Length >= WorkspaceSize(|b.ids|, L.I, L.H)
    modifies ws
    ensures IsLayerOutput(silu, L, b, ExpertsOf(emap, b.ids), out)
  {
    hide Area, Holds, IsLayerOutput, Placed, IsAlignment, GatedRows, WorkspaceSize, PairOuts, OutCell, ExpertsOf;
    ghost var expertOf := ExpertsOf(emap, b.ids);
    var tk := |b.ids|;
    Regions(tk, L.I, L.H);
    var sorted, experts, total := Align(b.ids, |emap|);
    var mapped := ExpertsOf(emap, experts[..]);
    AlignmentPlaces(b.ids, emap, 32, sorted[..], experts[..], total, mapped);
    ghost var c1 := Buffer1(L, b, expertOf);
    ghost var c2 := GatedRows(silu, c1, L.I);
    ghost var c3 := Buffer3(L, b, expertOf, c2);
    Launch(First(L, b), b.x, expertOf, c1, sorted[..], mapped, total, tk, 32, 64, 32, 8, hidden, 0, ws, 0);
    SiluMul(silu, c1, tk, L.I, ws);
    Launch(Second(L, b), c2, expertOf, c3, sorted[..], mapped, total, tk, 32, 64, 32, 8, ws, 0, ws, Area(tk, L.I));
    out := Reduce(ws, Area(tk, L.I), c3, |b.x|, b.K, L.H);
    BuffersArePairOuts(silu, L, b, expertOf);
    ReducedIsOutput(silu, L, b, expertOf, c3, out);
  }

  lemma ReducedIsOutput(silu: real -> real, L: Layer, b: Batch, expertOf: seq<int>, rows: seq<Row>, out: seq<Row>)
    requires LayerOk(L) && BatchOk(b, L.H) && LocalOk(expertOf, |L.w13|) && |expertOf| == |b.ids|
    requires rows == PairOuts(silu, L, b, expertOf, |b.ids|) && |out| == |b.x|
    requires forall t: nat | t < |out| :: |out[t]| == L.H && forall h: nat | h < L.H ::
        OutCell(rows, t, b.K, h, out[t][h])
    ensures IsLayerOutput(silu, L, b, expertOf, out)
  {
    hide PairOuts, OutCell;
  }

  lemma EagerStarts(silu: real -> real, L: Layer, b: Batch, expertOf: seq<int>, rows: seq<Row>, out: seq<Row>,
      start: nat)
    requires LayerOk(L) && BatchOk(b, L.H) && LocalOk(expertOf, |L.w13|) && |expertOf| == |b.ids|
    requires rows == PairOuts(silu, L, b, expertOf, |b.ids|) && out == BlankMatrix(|b.x|, L.H)
    ensures CellsAdded(out, rows, b.ids, start, start, 0, b.K, L.H)
  {
    hide CellAdded, PairOuts;
    BlankCells(|b.x|, L.H);
    forall t: nat, h: nat | t < |out| && h < L.H
      ensures CellAdded(rows, b.ids, start, start, 0, t, b.K, h, out[t][h])
    {
      CellStarts(rows, b.ids, start, t, |b.x|, b.K, h);
    }
  }

  lemma {:induction false} BlankCells(rows: nat, cols: nat)
    ensures forall t: nat | t < rows :: BlankMatrix(rows, cols)[t] == Zeros(cols)
  {
    if rows > 0 {
      BlankCells(rows - 1, cols);
    }
  }

  lemma CellsWidth(cells: seq<Row>, rows: seq<Row>, ids: seq<nat>, start: nat, e: nat, cur: nat, K: nat, H: nat, t: nat)
    requires CellsAdded(cells, rows, ids, start, e, cur, K, H) && t < |cells|
    ensures |cells[t]| == H
  {
  }

  lemma CellsAbsent(cells: seq<Row>, rows: seq<Row>, ids: seq<nat>, start: nat, e: nat, K: nat, H: nat)
    requires CellsAdded(cells, rows, ids, start, e, 0, K, H) && e !in ids
    ensures CellsAdded(cells, rows, ids, start, e, |ids|, K, H)
  {
    hide CellAdded;
    forall t: nat, h: nat | t < |cells| && h < H
      ensures CellAdded(rows, ids, start, e, |ids|, t, K, h, cells[t][h])
    {
      CellAbsent(rows, ids, start, e, t, K, h, cells[t][h]);
    }
  }

  lemma CellsNext(cells: seq<Row>, rows: seq<Row>, ids: seq<nat>, start: nat, e: nat, K: nat, H: nat)
    requires CellsAdded(cells, rows, ids, start, e, |ids|, K, H) && start <= e
    ensures CellsAdded(cells, rows, ids, start, e + 1, 0, K, H)
  {
    hide CellAdded;
    forall t: nat, h: nat | t < |cells| && h < H
      ensures CellAdded(rows, ids, start, e + 1, 0, t, K, h, cells[t][h])
    {
      CellNext(rows, ids, start, e, t, K, h, cells[t][h]);
    }
  }

  lemma EagerEnds(
    silu: real -> real, L: Layer, b: Batch, emap: seq<int>, start: nat, numLocal: nat, rows: seq<Row>, out: seq<Row>)
    requires LayerOk(L) && BatchOk(b, L.H) && |L.w13| == numLocal && Routed(b.ids, |emap|)
    requires emap == ExpertMap(|emap|, start, numLocal) && LocalOk(ExpertsOf(emap, b.ids), numLocal)
    requires rows == PairOuts(silu, L, b, ExpertsOf(emap, b.ids), |b.ids|) && |out| == |b.x|
    requires CellsAdded(out, rows, b.ids, start, start + numLocal, 0, b.K, L.H)
    ensures IsLayerOutput(silu, L, b, ExpertsOf(emap, b.ids), out)
  {
    hide CellAdded, PairOuts, OutCell;
    forall t: nat | t < |out|
      ensures |out[t]| == L.H && forall h: nat | h < L.H :: OutCell(rows, t, b.K, h, out[t][h])
    {
      forall h: nat | h < L.H
        ensures OutCell(rows, t, b.K, h, out[t][h])
      {
        CellEnds(rows, b.ids, start, start + numLocal, t, b.K, h, out[t][h]);
      }
    }
  }

  class FusedExperts {
    const numExperts: nat
    const numLocal: nat
    const start: nat
    const H: nat
    const I: nat
    const silu: real -> real
    const expertMap: seq<int>
    var w13: seq<seq<Row>>
    var w2: seq<seq<Row>>
    var workspace: array<real>

    ghost predicate Valid()
      reads this
    {
      && LayerOk(Shards()) && |w13| == numLocal
      && expertMap == ExpertMap(numExperts, start, numLocal) && start + numLocal <= numExperts
    }

    function Shards(): Layer
      reads this
    {
      Layer(w13, w2, H, I)
    }

    constructor (numExperts: nat, hidden: nat, intermediate: nat, tpSize: nat, epSize: nat, epRank: nat,
        silu: real -> real)
      requires tpSize > 0 && epSize > 0 && epRank < epSize
      requires intermediate % tpSize == 0 && numExperts % epSize == 0
      ensures Valid() && this.numExperts == numExperts && H == hidden && this.silu == silu
      ensures I == intermediate / tpSize && numLocal == numExperts / epSize && start == epRank * numLocal
    {
      var size, local := NatDiv(intermediate, tpSize), NatDiv(numExperts, epSize);
      this.numExperts, this.H, this.silu := numExperts, hidden, silu;
      I := size;
      numLocal := local;
      start := NatTimes(epRank, local);
      expertMap := ExpertMap(numExperts, NatTimes(epRank, local), local);
      w13 := Blank(local, 2 * size, hidden);
      w2 := Blank(local, hidden, size);
      workspace := new real[0];
      ShardsFit(numExperts, NatTimes(epRank, local), local, epSize, epRank);
    }

    predicate Owns(e: nat) {
      start <= e < start + numLocal
    }

    /** Copies the rank's slice of one projection of an owned expert into the stacked weights;
        experts of other ranks are skipped, an unknown projection is an error. */
    method LoadExpertWeight(expertId: nat, which: Projection, weight: seq<Row>, tpRank: nat) returns (ok: bool)
      requires Valid()
      requires which == GateProj || which == UpProj ==>
          Column(tpRank, I, I) <= |weight| && MatrixOk(weight, |weight|, H)
      requires which == DownProj ==> |weight| == H && forall k | 0 <= k < |weight| ::
          Column(tpRank, I, I) <= |weight[k]|
      modifies `w13, `w2
      ensures Valid() && ok == (which != OtherProj || !Owns(expertId))
      ensures !Owns(expertId) || which == OtherProj ==> w13 == old(w13) && w2 == old(w2)
      ensures Owns(expertId) ==>
                var l := expertId - start;
                && MatrixOk(old(w13)[l], 2 * I, H)
                && w13 == old(w13)[l := LoadedTop(old(w13)[l], which, weight, tpRank, I)]
                && w2 == old(w2)[l := LoadedDown(old(w2)[l], which, weight, tpRank, I)]
    {
      if !(start <= expertId < start + numLocal) {
        return true;
      }
      var l := expertId - start;
      assert MatrixOk(w13[l], 2 * I, H) && MatrixOk(w2[l], H, I);
      ok := true;
      match which
      case GateProj =>
        w13 := w13[l := Slice(weight, tpRank, I) + w13[l][I..]];
      case UpProj =>
        w13 := w13[l := w13[l][..I] + Slice(weight, tpRank, I)];
      case DownProj =>
        w2 := w2[l := ShardColumns(weight, tpRank, I)];
      case OtherProj =>
        ok := false;
    }

    /** The workspace only ever grows. */
    method EnsureWorkspace(tk: nat)
      modifies `workspace
      ensures workspace.Length >= WorkspaceSize(tk, I, H)
      ensures workspace == old(workspace) || (fresh(workspace) && workspace.Length > old(workspace.Length))
    {
      var need := WorkspaceSize(tk, I, H);
      if workspace.Length < need {
        workspace := new real[need](_ => 0.0);
      }
    }

    /** The fused path: align, first GEMM into `c1`, gate into `c2`, second GEMM into `c3`, reduce.
        `c1` shares its cells with `c2` and `c3`. */
    method Forward(hidden: array<real>, b: Batch) returns (out: seq<Row>)
      requires Valid() && BatchOk(b, H) && Routed(b.ids, numExperts)
      requires hidden != workspace && Holds(hidden[..], 0, H, b.x)
      modifies `workspace, workspace
      ensures Valid() && w13 == old(w13) && w2 == old(w2)
      ensures IsRankOutput(b, out)
    {
      hide Area, Holds, IsLayerOutput, WorkspaceSize;
      MapIsLocal(numExperts, start, numLocal, b.ids);
      EnsureWorkspace(|b.ids|);
      out := FusedExpertsTriton(silu, Shards(), b, expertMap, hidden, workspace);
    }

    /** The eager path: for each owned expert that has pairs, its row of every such pair is added to
        the pair's token. */
    method EagerForward(b: Batch) returns (out: seq<Row>)
      requires Valid() && BatchOk(b, H) && Routed(b.ids, numExperts)
      ensures IsRankOutput(b, out)
    {
      hide PairOuts, CellsAdded, IsLayerOutput, Area, ExpertRow, ExpertsOf;
      MapIsLocal(numExperts, start, numLocal, b.ids);
      ghost var expertOf := ExpertsOf(expertMap, b.ids);
      ghost var rows := PairOuts(silu, Shards(), b, expertOf, |b.ids|);
      out := BlankMatrix(|b.x|, H);
      EagerStarts(silu, Shards(), b, expertOf, rows, out, start);
      for e := start to start + numLocal
        invariant |out| == |b.x| && CellsAdded(out, rows, b.ids, start, e, 0, b.K, H)
      {
        if e in b.ids {
          for i := 0 to |b.ids|
            invariant |out| == |b.x| && CellsAdded(out, rows, b.ids, start, e, i, b.K, H)
          {
            TokenOf(i, |b.x|, b.K);
            CellsBump(out, rows, b.ids, start, e, i, b.K, H, rows[i]);
            if b.ids[i] == e {
              var t := i / b.K;
              var y := Scale(ExpertRow(silu, w13[e - start], w2[e - start], H, I, b.x[t]), b.weights[i]);
              CellsWidth(out, rows, b.ids, start, e, i, b.K, H, t);
              out := out[t := AddRows(out[t], y)];
            }
          }
        } else {
          CellsAbsent(out, rows, b.ids, start, e, b.K, H);
        }
        CellsNext(out, rows, b.ids, start, e, b.K, H);
      }
      EagerEnds(silu, Shards(), b, expertMap, start, numLocal, rows, out);
    }

    /** The two paths agree. */
    lemma FusedEqualsEager(b: Batch, fused: seq<Row>, eager: seq<Row>)
      requires Valid() && BatchOk(b, H) && Routed(b.ids, numExperts)
      requires IsRankOutput(b, fused) && IsRankOutput(b, eager)
      ensures fused == eager
    {
      hide PairOuts;
      MapIsLocal(numExperts, start, numLocal, b.ids);
      var rows := PairOuts(silu, Shards(), b, ExpertsOf(expertMap, b.ids), |b.ids|);
      forall t: nat | t < |b.x|
        ensures fused[t] == eager[t]
      {
        assert forall h: nat | h < H :: OutCell(rows, t, b.K, h, fused[t][h]) && OutCell(rows, t, b.K, h, eager[t][h]);
      }
    }

    ghost predicate IsRankOutput(b: Batch, out: seq<Row>)
      requires Valid() && BatchOk(b, H) && Routed(b.ids, numExperts)
      reads this
    {
      MapIsLocal(numExperts, start, numLocal, b.ids);
      IsLayerOutput(silu, Shards(), b, ExpertsOf(expertMap, b.ids), out)
    }
  }
}
