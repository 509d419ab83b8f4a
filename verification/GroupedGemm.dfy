/** The grouped GEMM kernel of the fused mixture-of-experts layer, over flat memory: its programs run
    in any order, each computing one tile of the output from the input rows its tokens name. */
module GroupedGemm {
  import opened Pages
  import opened MoeAlignment
  import opened TileSwizzle
  import opened RealVectors

  // ---- Flat memory ---------------------------------------------------------------------------

  function Area(rows: nat, cols: nat): nat {
    rows * cols
  }

  /** The address of cell `(i, n)` of a row-major view at `off`. */
  function At(off: nat, i: nat, cols: nat, n: nat): nat {
    off + i * cols + n
  }

  lemma AtIn(off: nat, i: nat, rows: nat, cols: nat, n: nat)
    requires i < rows && n < cols
    ensures off <= At(off, i, cols, n) < off + Area(rows, cols)
  {
    MulMonotone(i + 1, rows, cols);
    assert (i + 1) * cols == i * cols + cols;
  }

  lemma AtInjective(off: nat, i: nat, n: nat, j: nat, m: nat, cols: nat)
    requires n < cols && m < cols && At(off, i, cols, n) == At(off, j, cols, m)
    ensures i == j && n == m
  {
    DivModUnique(i * cols + n, cols, i, n);
    DivModUnique(j * cols + m, cols, j, m);
  }

  predicate CellIs(mem: seq<real>, a: nat, v: real) {
    a < |mem| && mem[a] == v
  }

  predicate RowIs(mem: seq<real>, off: nat, cols: nat, i: nat, row: Row) {
    |row| == cols && forall n: nat | n < cols :: CellIs(mem, At(off, i, cols, n), row[n])
  }

  /** The view of `|M|` by `cols` cells at `off` holds the matrix `M`. */
  predicate Holds(mem: seq<real>, off: nat, cols: nat, M: seq<Row>) {
    off + Area(|M|, cols) <= |mem| && forall i: nat | i < |M| :: RowIs(mem, off, cols, i, M[i])
  }

  predicate SameOutside(was: seq<real>, now: seq<real>, off: nat, size: nat) {
    |was| == |now| && forall q | 0 <= q < |was| && !(off <= q < off + size) :: now[q] == was[q]
  }

  lemma HoldsApart(was: seq<real>, now: seq<real>, off: nat, size: nat, aOff: nat, cols: nat, A: seq<Row>)
    requires SameOutside(was, now, off, size) && Holds(was, aOff, cols, A)
    requires aOff + Area(|A|, cols) <= off || off + size <= aOff
    ensures Holds(now, aOff, cols, A)
  {
    hide Area, At;
    forall i: nat | i < |A|
      ensures RowIs(now, aOff, cols, i, A[i])
    {
      assert RowIs(was, aOff, cols, i, A[i]);
      forall n: nat | n < cols
        ensures CellIs(now, At(aOff, i, cols, n), A[i][n])
      {
        assert CellIs(was, At(aOff, i, cols, n), A[i][n]);
        AtIn(aOff, i, |A|, cols, n);
      }
    }
  }

  // ---- What one launch computes --------------------------------------------------------------

  /** The weights of a launch: `W[e]` has `N` rows of length `K`; `topk` pairs share an input row. */
  datatype Weights = Weights(W: seq<seq<Row>>, K: nat, N: nat, mul: bool, scale: Row, topk: nat)

  predicate WeightsOk(w: Weights, numValid: nat) {
    && w.topk > 0 && (w.mul ==> |w.scale| == numValid)
    && forall e | 0 <= e < |w.W| :: MatrixOk(w.W[e], w.N, w.K)
  }

  predicate MatrixOk(m: seq<Row>, rows: nat, cols: nat) {
    |m| == rows && forall r | 0 <= r < rows :: |m[r]| == cols
  }

  /** Row `i` of the output: pair `i`'s input row through its local expert, zero if remote. */
  function PairRow(w: Weights, A: seq<Row>, expert: int, i: nat): (r: Row)
    requires w.topk > 0 && i / w.topk < |A| && |A[i / w.topk]| == w.K
    requires -1 <= expert < |w.W| && (expert >= 0 ==> MatrixOk(w.W[expert], w.N, w.K))
    requires w.mul ==> i < |w.scale|
    ensures |r| == w.N
  {
    if expert == -1 then Zeros(w.N)
    else
      var y := MatVec(w.W[expert], A[i / w.topk]);
      if w.mul then Scale(y, w.scale[i]) else y
  }

  /** `rows` is the output matrix for input matrix `A`; `expertOf[i]` is pair `i`'s local expert. */
  ghost predicate IsOutput(w: Weights, A: seq<Row>, expertOf: seq<int>, rows: seq<Row>) {
    && WeightsOk(w, |expertOf|) && |rows| == |expertOf|
    && forall i: nat | i < |expertOf| ::
         && -1 <= expertOf[i] < |w.W| && i / w.topk < |A| && |A[i / w.topk]| == w.K
         && rows[i] == PairRow(w, A, expertOf[i], i)
  }

  // ---- What the kernel needs from the alignment ----------------------------------------------

  /** Real entries sit in blocks of their own expert, and every pair has an entry. */
  ghost predicate Placed(expertOf: seq<int>, B: nat, sorted: seq<nat>, experts: seq<int>, total: nat)
    requires B > 0
  {
    && total <= |sorted| && total == total / B * B
    && (forall p: nat | p < total :: EntryOk(expertOf, B, sorted, experts, p))
    && (forall i: nat | i < |expertOf| :: i in sorted[..total])
  }

  predicate EntryOk(expertOf: seq<int>, B: nat, sorted: seq<nat>, experts: seq<int>, p: nat)
    requires B > 0 && p < |sorted|
  {
    p / B < |experts| && (sorted[p] < |expertOf| ==> experts[p / B] == expertOf[sorted[p]])
  }

  function ExpertsOf(emap: seq<int>, ids: seq<nat>): (r: seq<int>)
    requires Routed(ids, |emap|)
    ensures |r| == |ids| && forall i | 0 <= i < |ids| :: r[i] == emap[ids[i]]
  {
    if ids == [] then [] else ExpertsOf(emap, ids[..|ids| - 1]) + [emap[ids[|ids| - 1]]]
  }

  lemma AlignmentPlaces(
    ids: seq<nat>, emap: seq<int>, B: nat, sorted: seq<nat>, experts: seq<nat>, total: nat, mapped: seq<int>)
    requires B > 0 && Routed(ids, |emap|) && IsAlignment(ids, |emap|, B, sorted, experts, total)
    requires |mapped| == |experts|
    requires forall b | 0 <= b < |experts| :: experts[b] < |emap| && mapped[b] == emap[experts[b]]
    ensures Placed(ExpertsOf(emap, ids), B, sorted, mapped, total)
  {
    hide IsAlignment, Counts, Base, Blocks, EntryOk, ExpertsOf;
    var expertOf := ExpertsOf(emap, ids);
    TotalIs(ids, |emap|, B, sorted, experts, total);
    BaseIsBlocks(Counts(ids, |emap|), |emap|, B);
    forall p: nat | p < total
      ensures EntryOk(expertOf, B, sorted, mapped, p)
    {
      EntryPlaced(ids, emap, B, sorted, experts, total, mapped, p);
    }
    forall i: nat | i < |expertOf|
      ensures i in sorted[..total]
    {
      var p := PairHasPlace(ids, |emap|, B, sorted, experts, total, i);
      assert sorted[..total][p] == i;
    }
  }

  lemma EntryPlaced(
    ids: seq<nat>, emap: seq<int>, B: nat, sorted: seq<nat>, experts: seq<nat>, total: nat, mapped: seq<int>, p: nat)
    requires B > 0 && Routed(ids, |emap|) && IsAlignment(ids, |emap|, B, sorted, experts, total)
    requires p < total <= |sorted|
    requires |mapped| == |experts|
    requires forall b | 0 <= b < |experts| :: experts[b] < |emap| && mapped[b] == emap[experts[b]]
    ensures EntryOk(ExpertsOf(emap, ids), B, sorted, mapped, p)
  {
    hide *;
    BlocksArePure(ids, |emap|, B, sorted, experts, total, p);
    EntryMapped(ids, emap, B, sorted, mapped, p, experts[p / B]);
  }

  lemma EntryMapped(ids: seq<nat>, emap: seq<int>, B: nat, sorted: seq<nat>, mapped: seq<int>, p: nat, e: nat)
    requires B > 0 && Routed(ids, |emap|) && p < |sorted| && p / B < |mapped| && e < |emap| && mapped[p / B] == emap[e]
    requires sorted[p] == |ids| || (sorted[p] < |ids| && ids[sorted[p]] == e)
    ensures EntryOk(ExpertsOf(emap, ids), B, sorted, mapped, p)
  {
    hide ExpertsOf;
  }

  // ---- One program ---------------------------------------------------------------------------

  /** Stores so far were right: cells outside the output are untouched, right cells stay right. */
  ghost predicate Progress(was: seq<real>, now: seq<real>, cOff: nat, N: nat, rows: seq<Row>) {
    && SameOutside(was, now, cOff, Area(|rows|, N))
    && forall i: nat, n: nat | i < |rows| && n < N && |rows[i]| == N ::
         CellIs(was, At(cOff, i, N, n), rows[i][n]) ==> CellIs(now, At(cOff, i, N, n), rows[i][n])
  }

  lemma StoreProgress(was: seq<real>, cOff: nat, N: nat, rows: seq<Row>, i: nat, n: nat)
    requires i < |rows| && n < N && |rows[i]| == N && cOff + Area(|rows|, N) <= |was|
    ensures At(cOff, i, N, n) < |was|
    ensures Progress(was, was[At(cOff, i, N, n) := rows[i][n]], cOff, N, rows)
  {
    AtIn(cOff, i, |rows|, N, n);
    var now := was[At(cOff, i, N, n) := rows[i][n]];
    hide Area, At;
    forall j: nat, m: nat | j < |rows| && m < N && |rows[j]| == N && CellIs(was, At(cOff, j, N, m), rows[j][m])
      ensures CellIs(now, At(cOff, j, N, m), rows[j][m])
    {
      if At(cOff, i, N, n) == At(cOff, j, N, m) {
        AtInjective(cOff, i, n, j, m, N);
      }
    }
  }

  /** Accumulates a dot product over tiles of `BK` columns, masked past `K`. */
  method DotTiles(src: array<real>, aOff: nat, row: nat, ghost a: Row, b: Row, BK: nat) returns (acc: real)
    requires BK > 0 && |a| == |b| && RowIs(src[..], aOff, |b|, row, a)
    ensures acc == Dot(a, b)
  {
    var K := |b|;
    acc := 0.0;
    var start := 0;
    while start < K
      invariant acc == Dot(a[..if start < K then start else K], b[..if start < K then start else K])
      decreases K - start
    {
      var tile := 0.0;
      for lane := 0 to BK
        invariant start < K
        invariant var end := if start + lane < K then start + lane else K;
                  acc + tile == Dot(a[..end], b[..end])
      {
        var k := start + lane;
        if k < K {
          DotStep(a, b, k);
          assert CellIs(src[..], At(aOff, row, K, k), a[k]);
          tile := tile + src[At(aOff, row, K, k)] * b[k];
        }
      }
      acc := acc + tile;
      start := start + BK;
    }
    assert a[..K] == a && b[..K] == b;
  }

  /** The kernel's accumulator for a token's column, scaled by the pair's weight if asked. */
  method CellValue(w: Weights, ghost A: seq<Row>, ghost expertOf: seq<int>, ghost rows: seq<Row>, expert: int,
      token: nat, n: nat, BK: nat, src: array<real>, aOff: nat)
    returns (acc: real)
    requires BK > 0 && IsOutput(w, A, expertOf, rows) && token < |rows| && expert == expertOf[token] && n < w.N
    requires Holds(src[..], aOff, w.K, A)
    ensures |rows[token]| == w.N && acc == rows[token][n]
  {
    hide Area, At, Holds;
    acc := 0.0;
    assert rows[token] == PairRow(w, A, expert, token);
    if expert != -1 {
      var row := token / w.topk;
      RowHeld(src[..], aOff, w.K, A, row);
      assert MatrixOk(w.W[expert], w.N, w.K);
      acc := DotTiles(src, aOff, row, A[row], w.W[expert][n], BK);
      if w.mul {
        acc := acc * w.scale[token];
      }
    }
  }

  /** The columns of one token that fall into a tile. */
  method StoreRow(
    w: Weights, ghost A: seq<Row>, ghost expertOf: seq<int>, ghost rows: seq<Row>, expert: int, token: nat, nTile: nat,
    BN: nat, BK: nat, src: array<real>, aOff: nat, ws: array<real>, cOff: nat)
    requires BK > 0 && IsOutput(w, A, expertOf, rows) && token < |rows| && expert == expertOf[token]
    requires Holds(src[..], aOff, w.K, A) && cOff + Area(|rows|, w.N) <= ws.Length
    requires src != ws || aOff + Area(|A|, w.K) <= cOff || cOff + Area(|rows|, w.N) <= aOff
    modifies ws
    ensures Progress(old(ws[..]), ws[..], cOff, w.N, rows) && Holds(src[..], aOff, w.K, A)
    ensures RowPart(ws[..], cOff, w.N, rows, token, nTile, BN)
    ensures RowOnly(old(ws[..]), ws[..], cOff, w.N, |rows|, token, nTile, BN)
  {
    hide Progress, Area, At, Holds, IsOutput, RowOnly;
    OutputRow(w, A, expertOf, rows, token);
    SameProgress(ws[..], cOff, w.N, rows);
    NothingStored(ws[..], cOff, w.N, |rows|, token, nTile, BN);
    for c := 0 to BN
      invariant Progress(old(ws[..]), ws[..], cOff, w.N, rows) && Holds(src[..], aOff, w.K, A)
      invariant RowOnly(old(ws[..]), ws[..], cOff, w.N, |rows|, token, nTile, BN)
      invariant forall n: nat | nTile * BN <= n < nTile * BN + c && n < w.N ::
          CellIs(ws[..], At(cOff, token, w.N, n), rows[token][n])
    {
      var n := Column(nTile, BN, c);
      if n < w.N {
        var acc := CellValue(w, A, expertOf, rows, expert, token, n, BK, src, aOff);
        StoreProgress(ws[..], cOff, w.N, rows, token, n);
        StoredOnly(old(ws[..]), ws[..], cOff, w.N, |rows|, token, nTile, BN, n, acc);
        label Before:
        ws[At(cOff, token, w.N, n)] := acc;
        assert ws[..] == old@Before(ws[..])[At(cOff, token, w.N, n) := acc];
        StoreKeepsInput(old@Before(ws[..]), ws[..], src[..], src == ws, cOff, w, A, aOff, rows);
        ProgressTrans(old(ws[..]), old@Before(ws[..]), ws[..], cOff, w.N, rows);
        RightStay(old@Before(ws[..]), ws[..], cOff, w.N, rows, token);
      }
    }
  }

  /** No cell but those of the token in the tile's columns changed. */
  ghost predicate RowOnly(
    was: seq<real>, now: seq<real>, cOff: nat, N: nat, count: nat, token: nat, nTile: nat, BN: nat)
  {
    && |now| == |was|
    && forall i: nat, n: nat | i < count && n < N && !(i == token && nTile * BN <= n < nTile * BN + BN) ::
         At(cOff, i, N, n) < |was| ==> now[At(cOff, i, N, n)] == was[At(cOff, i, N, n)]
  }

  lemma NothingStored(mem: seq<real>, cOff: nat, N: nat, count: nat, token: nat, nTile: nat, BN: nat)
    ensures RowOnly(mem, mem, cOff, N, count, token, nTile, BN)
  {
  }

  lemma StoredOnly(was: seq<real>, now: seq<real>, cOff: nat, N: nat, count: nat, token: nat, nTile: nat, BN: nat,
      n: nat, v: real)
    requires RowOnly(was, now, cOff, N, count, token, nTile, BN) && n < N && nTile * BN <= n < nTile * BN + BN
    requires At(cOff, token, N, n) < |now|
    ensures RowOnly(was, now[At(cOff, token, N, n) := v], cOff, N, count, token, nTile, BN)
  {
    hide At;
    var now' := now[At(cOff, token, N, n) := v];
    forall j: nat, m: nat | j < count && m < N && !(j == token && nTile * BN <= m < nTile * BN + BN)
        && At(cOff, j, N, m) < |was|
      ensures now'[At(cOff, j, N, m)] == was[At(cOff, j, N, m)]
    {
      if At(cOff, token, N, n) == At(cOff, j, N, m) {
        AtInjective(cOff, token, n, j, m, N);
      }
    }
  }

  function Column(nTile: nat, BN: nat, c: nat): nat {
    nTile * BN + c
  }

  /** The tile's columns of `token` are right. */
  predicate RowPart(mem: seq<real>, cOff: nat, N: nat, rows: seq<Row>, token: nat, nTile: nat, BN: nat)
    requires token < |rows|
  {
    |rows[token]| == N &&
    forall n: nat | nTile * BN <= n < nTile * BN + BN && n < N :: CellIs(mem, At(cOff, token, N, n), rows[token][n])
  }

  lemma RowHeld(mem: seq<real>, off: nat, cols: nat, M: seq<Row>, i: nat)
    requires Holds(mem, off, cols, M) && i < |M|
    ensures RowIs(mem, off, cols, i, M[i])
  {
  }

  lemma SameProgress(mem: seq<real>, cOff: nat, N: nat, rows: seq<Row>)
    ensures Progress(mem, mem, cOff, N, rows)
  {
  }

  lemma ProgressTrans(a: seq<real>, b: seq<real>, c: seq<real>, cOff: nat, N: nat, rows: seq<Row>)
    requires Progress(a, b, cOff, N, rows) && Progress(b, c, cOff, N, rows)
    ensures Progress(a, c, cOff, N, rows)
  {
    hide CellIs, At, Area;
  }

  lemma RightStay(was: seq<real>, now: seq<real>, cOff: nat, N: nat, rows: seq<Row>, i: nat)
    requires Progress(was, now, cOff, N, rows) && i < |rows| && |rows[i]| == N
    ensures forall n: nat | n < N && CellIs(was, At(cOff, i, N, n), rows[i][n]) ::
        CellIs(now, At(cOff, i, N, n), rows[i][n])
  {
    hide CellIs, At, Area;
  }

  lemma StoreKeepsInput(
    was: seq<real>, now: seq<real>, input: seq<real>, shared: bool, cOff: nat, w: Weights, A: seq<Row>, aOff: nat,
        rows: seq<Row>)
    requires Progress(was, now, cOff, w.N, rows)
    requires if shared then Holds(was, aOff, w.K, A) && input == now else Holds(input, aOff, w.K, A)
    requires !shared || aOff + Area(|A|, w.K) <= cOff || cOff + Area(|rows|, w.N) <= aOff
    ensures Holds(input, aOff, w.K, A)
  {
    hide Area, At, Holds;
    if shared {
      HoldsApart(was, now, cOff, Area(|rows|, w.N), aOff, w.K, A);
    }
  }

  /** Program `(mTile, nTile)`: every real token of its block, in the tile's columns. */
  method RunTile(
    w: Weights, ghost A: seq<Row>, ghost expertOf: seq<int>, ghost rows: seq<Row>,
    sorted: seq<nat>, experts: seq<int>, total: nat, numValid: nat, tile: Tile, BM: nat, BN: nat, BK: nat,
    src: array<real>, aOff: nat, ws: array<real>, cOff: nat)
    requires BM > 0 && BK > 0 && IsOutput(w, A, expertOf, rows) && numValid == |rows|
    requires Placed(expertOf, BM, sorted, experts, total)
    requires Holds(src[..], aOff, w.K, A) && cOff + Area(|rows|, w.N) <= ws.Length
    requires src != ws || aOff + Area(|A|, w.K) <= cOff || cOff + Area(|rows|, w.N) <= aOff
    modifies ws
    ensures Progress(old(ws[..]), ws[..], cOff, w.N, rows) && Holds(src[..], aOff, w.K, A)
    ensures TileRight(ws[..], cOff, w.N, rows, sorted, total, tile, BM, BN)
    ensures TileOnly(old(ws[..]), ws[..], cOff, w.N, |rows|, sorted, total, tile, BM, BN)
  {
    hide Progress, Area, At, Holds, RowPart, RowOnly, TileOnly, IsOutput, EntryOk;
    OutputSize(w, A, expertOf, rows);
    SameProgress(ws[..], cOff, w.N, rows);
    NoCellStored(ws[..], cOff, w.N, |rows|, sorted, total, tile, BM, BN);
    var first := Column(tile.m, BM, 0);
    if first >= total {
      return;
    }
    BlockInside(tile.m, BM, total);
    var expert := ExpertOfBlock(expertOf, BM, sorted, experts, total, tile.m);
    for lane := 0 to BM
      invariant Progress(old(ws[..]), ws[..], cOff, w.N, rows) && Holds(src[..], aOff, w.K, A)
      invariant TileOnly(old(ws[..]), ws[..], cOff, w.N, |rows|, sorted, total, tile, BM, BN)
      invariant forall p: nat | first <= p < first + lane && sorted[p] < |rows| ::
                  RowPart(ws[..], cOff, w.N, rows, sorted[p], tile.n, BN)
    {
      var token := sorted[first + lane];
      if token < numValid {
        EntryInBlock(expertOf, BM, sorted, experts, total, tile.m, lane);
        OutputRow(w, A, expertOf, rows, token);
        label Before:
        StoreRow(w, A, expertOf, rows, expert, token, tile.n, BN, BK, src, aOff, ws, cOff);
        ProgressTrans(old(ws[..]), old@Before(ws[..]), ws[..], cOff, w.N, rows);
        RowInTile(old(ws[..]), old@Before(ws[..]), ws[..], cOff, w.N, |rows|, sorted, total, tile, BM, BN,
            first + lane);
        forall p: nat | first <= p < first + lane && sorted[p] < |rows|
          ensures RowPart(ws[..], cOff, w.N, rows, sorted[p], tile.n, BN)
        {
          PartStays(old@Before(ws[..]), ws[..], cOff, w.N, rows, sorted[p], tile.n, BN);
        }
      }
    }
  }

  /** The real tokens of the tile's block are right in the tile's columns. */
  ghost predicate TileRight(
    mem: seq<real>, cOff: nat, N: nat, rows: seq<Row>, sorted: seq<nat>, total: nat, tile: Tile, BM: nat, BN: nat)
    requires total <= |sorted|
  {
    forall p: nat | tile.m * BM <= p < tile.m * BM + BM && p < total && sorted[p] < |rows| ::
      RowPart(mem, cOff, N, rows, sorted[p], tile.n, BN)
  }

  /** The program of `tile` stores column `n` of pair `i`. */
  ghost predicate StoresCell(sorted: seq<nat>, total: nat, tile: Tile, BM: nat, BN: nat, i: nat, n: nat) {
    && tile.n * BN <= n < tile.n * BN + BN
    && exists p: nat :: tile.m * BM <= p < tile.m * BM + BM && p < total && p < |sorted| && sorted[p] == i
  }

  /** No output cell but those the program stores changed. */
  ghost predicate TileOnly(was: seq<real>, now: seq<real>, cOff: nat, N: nat, count: nat, sorted: seq<nat>, total: nat,
      tile: Tile, BM: nat, BN: nat)
  {
    && |now| == |was|
    && forall i: nat, n: nat | i < count && n < N && !StoresCell(sorted, total, tile, BM, BN, i, n) ::
         At(cOff, i, N, n) < |was| ==> now[At(cOff, i, N, n)] == was[At(cOff, i, N, n)]
  }

  lemma NoCellStored(mem: seq<real>, cOff: nat, N: nat, count: nat, sorted: seq<nat>, total: nat, tile: Tile,
      BM: nat, BN: nat)
    ensures TileOnly(mem, mem, cOff, N, count, sorted, total, tile, BM, BN)
  {
  }

  lemma RowInTile(a: seq<real>, b: seq<real>, c: seq<real>, cOff: nat, N: nat, count: nat, sorted: seq<nat>, total: nat,
      tile: Tile, BM: nat, BN: nat, p: nat)
    requires TileOnly(a, b, cOff, N, count, sorted, total, tile, BM, BN)
    requires tile.m * BM <= p < tile.m * BM + BM && p < total && p < |sorted|
    requires RowOnly(b, c, cOff, N, count, sorted[p], tile.n, BN)
    ensures TileOnly(a, c, cOff, N, count, sorted, total, tile, BM, BN)
  {
    hide At;
  }

  lemma BlockInside(m: nat, BM: nat, total: nat)
    requires BM > 0 && m * BM < total && total == total / BM * BM
    ensures m * BM + BM <= total
  {
    SmallerFactor(m, total / BM, BM);
    MulMonotone(m + 1, total / BM, BM);
    assert (m + 1) * BM == m * BM + BM;
  }

  /** The block's expert entry. */
  function ExpertOfBlock(ghost expertOf: seq<int>, BM: nat, sorted: seq<nat>, experts: seq<int>, ghost total: nat,
      m: nat): int
    requires BM > 0 && Placed(expertOf, BM, sorted, experts, total) && m * BM < total
  {
    DivModUnique(m * BM, BM, m, 0);
    assert EntryOk(expertOf, BM, sorted, experts, m * BM);
    experts[m]
  }

  lemma EntryInBlock(expertOf: seq<int>, BM: nat, sorted: seq<nat>, experts: seq<int>, total: nat, m: nat, lane: nat)
    requires BM > 0 && Placed(expertOf, BM, sorted, experts, total) && m * BM + lane < total && lane < BM
    requires sorted[m * BM + lane] < |expertOf| && m * BM < total
    ensures ExpertOfBlock(expertOf, BM, sorted, experts, total, m) == expertOf[sorted[m * BM + lane]]
  {
    DivModUnique(m * BM + lane, BM, m, lane);
    assert EntryOk(expertOf, BM, sorted, experts, m * BM + lane);
  }

  lemma OutputSize(w: Weights, A: seq<Row>, expertOf: seq<int>, rows: seq<Row>)
    requires IsOutput(w, A, expertOf, rows)
    ensures |expertOf| == |rows|
  {
  }

  lemma OutputRow(w: Weights, A: seq<Row>, expertOf: seq<int>, rows: seq<Row>, i: nat)
    requires IsOutput(w, A, expertOf, rows) && i < |rows|
    ensures |expertOf| == |rows| && |rows[i]| == w.N
  {
  }

  lemma PartStays(was: seq<real>, now: seq<real>, cOff: nat, N: nat, rows: seq<Row>, i: nat, nTile: nat, BN: nat)
    requires Progress(was, now, cOff, N, rows) && i < |rows| && RowPart(was, cOff, N, rows, i, nTile, BN)
    ensures RowPart(now, cOff, N, rows, i, nTile, BN)
  {
    hide At, Area, CellIs;
  }

  // ---- The launch ----------------------------------------------------------------------------

  /** All programs, in any order. */
  method Launch(
    w: Weights, ghost A: seq<Row>, ghost expertOf: seq<int>, ghost rows: seq<Row>,
    sorted: seq<nat>, experts: seq<int>, total: nat, numValid: nat, BM: nat, BN: nat, BK: nat, G: nat,
    src: array<real>, aOff: nat, ws: array<real>, cOff: nat)
    requires BM > 0 && BN > 0 && BK > 0 && G > 0 && IsOutput(w, A, expertOf, rows) && numValid == |rows|
    requires Placed(expertOf, BM, sorted, experts, total)
    requires Holds(src[..], aOff, w.K, A) && cOff + Area(|rows|, w.N) <= ws.Length
    requires src != ws || aOff + Area(|A|, w.K) <= cOff || cOff + Area(|rows|, w.N) <= aOff
    modifies ws
    ensures Holds(ws[..], cOff, w.N, rows) && SameOutside(old(ws[..]), ws[..], cOff, Area(|rows|, w.N))
  {
    hide Progress, Area, At, Holds, IsOutput, Placed, TileRight, CeilDiv, TileOf, PidOf;
    SameProgress(ws[..], cOff, w.N, rows);
    PlacedTotal(expertOf, BM, sorted, experts, total);
    var numM, numN := CeilDiv(|sorted|, BM), CeilDiv(w.N, BN);
    var todo: set<nat> := Lanes(Area(numM, numN));
    while todo != {}
      invariant Progress(old(ws[..]), ws[..], cOff, w.N, rows) && Holds(src[..], aOff, w.K, A)
      invariant forall pid | pid in todo :: pid < Area(numM, numN)
      invariant forall pid: nat | pid < Area(numM, numN) && pid !in todo ::
                  TileRight(ws[..], cOff, w.N, rows, sorted, total, TileAt(pid, numM, numN, G), BM, BN)
      decreases |todo|
    {
      var pid :| pid in todo;
      label Before:
      RunTile(w, A, expertOf, rows, sorted, experts, total, numValid, TileAt(pid, numM, numN, G), BM, BN, BK, src, aOff,
          ws, cOff);
      ProgressTrans(old(ws[..]), old@Before(ws[..]), ws[..], cOff, w.N, rows);
      forall done: nat | done < Area(numM, numN) && done !in todo
        ensures TileRight(ws[..], cOff, w.N, rows, sorted, total, TileAt(done, numM, numN, G), BM, BN)
      {
        TileStays(old@Before(ws[..]), ws[..], cOff, w.N, rows, sorted, total, TileAt(done, numM, numN, G), BM, BN);
      }
      todo := todo - {pid};
    }
    ProgressOutside(old(ws[..]), ws[..], cOff, w.N, rows);
    AllTilesRight(w, A, expertOf, rows, sorted, experts, total, numM, numN, BM, BN, G, ws[..], cOff);
  }

  function TileAt(pid: nat, numM: nat, numN: nat, G: nat): Tile
    requires G > 0 && pid < Area(numM, numN)
  {
    TileOf(pid, numM, numN, G)
  }

  lemma PlacedTotal(expertOf: seq<int>, BM: nat, sorted: seq<nat>, experts: seq<int>, total: nat)
    requires BM > 0 && Placed(expertOf, BM, sorted, experts, total)
    ensures total <= |sorted|
  {
  }

  lemma ProgressOutside(was: seq<real>, now: seq<real>, cOff: nat, N: nat, rows: seq<Row>)
    requires Progress(was, now, cOff, N, rows)
    ensures SameOutside(was, now, cOff, Area(|rows|, N))
  {
  }

  lemma TileStays(
    was: seq<real>, now: seq<real>, cOff: nat, N: nat, rows: seq<Row>, sorted: seq<nat>, total: nat, tile: Tile,
        BM: nat, BN: nat)
    requires Progress(was, now, cOff, N, rows) && total <= |sorted|
    requires TileRight(was, cOff, N, rows, sorted, total, tile, BM, BN)
    ensures TileRight(now, cOff, N, rows, sorted, total, tile, BM, BN)
  {
    hide Progress, RowPart;
    forall p: nat | tile.m * BM <= p < tile.m * BM + BM && p < total && sorted[p] < |rows|
      ensures RowPart(now, cOff, N, rows, sorted[p], tile.n, BN)
    {
      PartStays(was, now, cOff, N, rows, sorted[p], tile.n, BN);
    }
  }

  /** The tile that computes the cell of an entry and a column. */
  lemma CellHasTile(p: nat, n: nat, size: nat, N: nat, BM: nat, BN: nat, G: nat) returns (pid: nat)
    requires BM > 0 && BN > 0 && G > 0 && p < size && n < N
    ensures pid < Area(CeilDiv(size, BM), CeilDiv(N, BN))
    ensures var t := TileAt(pid, CeilDiv(size, BM), CeilDiv(N, BN), G);
            t.m * BM <= p < t.m * BM + BM && t.n * BN <= n < t.n * BN + BN
  {
    BlockBelow(p, size, BM);
    BlockBelow(n, N, BN);
    var t := Tile(p / BM, n / BN);
    pid := PidOf(t, CeilDiv(size, BM), CeilDiv(N, BN), G);
    TileRoundTrip(t, CeilDiv(size, BM), CeilDiv(N, BN), G);
  }

  lemma BlockBelow(p: nat, size: nat, B: nat)
    requires B > 0 && p < size
    ensures 0 <= p / B < CeilDiv(size, B) && p / B * B <= p < p / B * B + B
  {
    var q, r := p / B, CeilDiv(size, B);
    assert size + B - 1 < r * B + B && q * B <= p;
    assert (q - r) * B == q * B - r * B;
    MulAtLeast(q - r, B);
  }

  /** No other program's tile holds that cell. */
  lemma CellHasOneTile(p: nat, n: nat, numM: nat, numN: nat, BM: nat, BN: nat, G: nat, pid: nat, other: nat)
    requires BM > 0 && BN > 0 && G > 0 && pid < Area(numM, numN) && other < Area(numM, numN)
    requires var t := TileAt(pid, numM, numN, G);
             t.m * BM <= p < t.m * BM + BM && t.n * BN <= n < t.n * BN + BN
    requires var t := TileAt(other, numM, numN, G);
             t.m * BM <= p < t.m * BM + BM && t.n * BN <= n < t.n * BN + BN
    ensures pid == other
  {
    var t, u := TileAt(pid, numM, numN, G), TileAt(other, numM, numN, G);
    DivModUnique(p, BM, t.m, p - t.m * BM);
    DivModUnique(p, BM, u.m, p - u.m * BM);
    DivModUnique(n, BN, t.n, n - t.n * BN);
    DivModUnique(n, BN, u.n, n - u.n * BN);
    PidRoundTrip(pid, numM, numN, G);
    PidRoundTrip(other, numM, numN, G);
  }

  /** Exactly one program of the launch stores a given column of a given pair. */
  lemma CellStoredOnce(ids: seq<nat>, E: nat, BM: nat, sorted: seq<nat>, experts: seq<nat>, total: nat, N: nat, BN: nat,
      G: nat, i: nat, n: nat) returns (pid: nat)
    requires BM > 0 && BN > 0 && G > 0 && Routed(ids, E) && IsAlignment(ids, E, BM, sorted, experts, total)
    requires i < |ids| && n < N
    ensures var numM, numN := CeilDiv(|sorted|, BM), CeilDiv(N, BN);
            && pid < Area(numM, numN) && StoresCell(sorted, total, TileAt(pid, numM, numN, G), BM, BN, i, n)
            && forall other: nat |
                 other < Area(numM, numN) && StoresCell(sorted, total, TileAt(other, numM, numN, G), BM, BN, i, n) ::
                 other == pid
  {
    hide Area, CeilDiv, TileAt, IsAlignment, Routed;
    var numM, numN := CeilDiv(|sorted|, BM), CeilDiv(N, BN);
    var p := PairHasPlace(ids, E, BM, sorted, experts, total, i);
    pid := CellHasTile(p, n, |sorted|, N, BM, BN, G);
    forall other: nat |
        other < Area(numM, numN) && StoresCell(sorted, total, TileAt(other, numM, numN, G), BM, BN, i, n)
      ensures other == pid
    {
      var t := TileAt(other, numM, numN, G);
      var q: nat :| t.m * BM <= q < t.m * BM + BM && q < total && q < |sorted| && sorted[q] == i;
      SamePlace(ids, E, BM, sorted, experts, total, p, q);
      CellHasOneTile(p, n, numM, numN, BM, BN, G, pid, other);
    }
  }

  lemma SamePlace(ids: seq<nat>, E: nat, B: nat, sorted: seq<nat>, experts: seq<nat>, total: nat, p: nat, q: nat)
    requires B > 0 && IsAlignment(ids, E, B, sorted, experts, total)
    requires p < total <= |sorted| && q < total && sorted[p] == sorted[q] < |ids|
    ensures p == q
  {
    hide IsAlignment;
    if p < q {
      PairHasOnePlace(ids, E, B, sorted, experts, total, p, q);
    } else if q < p {
      PairHasOnePlace(ids, E, B, sorted, experts, total, q, p);
    }
  }

  lemma AllTilesRight(
    w: Weights, A: seq<Row>, expertOf: seq<int>, rows: seq<Row>, sorted: seq<nat>, experts: seq<int>, total: nat,
    numM: nat, numN: nat, BM: nat, BN: nat, G: nat, mem: seq<real>, cOff: nat)
    requires BM > 0 && BN > 0 && G > 0 && IsOutput(w, A, expertOf, rows)
    requires Placed(expertOf, BM, sorted, experts, total) && cOff + Area(|rows|, w.N) <= |mem|
    requires numM == CeilDiv(|sorted|, BM) && numN == CeilDiv(w.N, BN)
    requires forall pid: nat | pid < Area(numM, numN) ::
               TileRight(mem, cOff, w.N, rows, sorted, total, TileAt(pid, numM, numN, G), BM, BN)
    ensures Holds(mem, cOff, w.N, rows)
  {
    hide Area, At, CeilDiv, TileAt, CellIs, EntryOk;
    forall i: nat | i < |rows|
      ensures RowIs(mem, cOff, w.N, i, rows[i])
    {
      OutputRow(w, A, expertOf, rows, i);
      assert i in sorted[..total];
      var p :| 0 <= p < total && sorted[..total][p] == i;
      forall n: nat | n < w.N
        ensures CellIs(mem, At(cOff, i, w.N, n), rows[i][n])
      {
        var pid := CellHasTile(p, n, |sorted|, w.N, BM, BN, G);
        var t := TileAt(pid, numM, numN, G);
        assert TileRight(mem, cOff, w.N, rows, sorted, total, t, BM, BN);
        assert RowPart(mem, cOff, w.N, rows, sorted[p], t.n, BN);
      }
    }
  }
}
