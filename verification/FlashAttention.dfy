/** Tiled attention of one head over the reals.  FA1 walks the key tiles outside and keeps normalised
    outputs; FA2 walks the query tiles outside and normalises once.  Both skip tiles above the causal
    diagonal, and both equal safe softmax attention. */
module FlashAttention {
  import opened Pages
  import opened RealVectors
  import opened OnlineSoftmax
  import opened FlashDecode

  // ---- Scores --------------------------------------------------------------------------------

  function Scaled(x: Ext, scale: real): Ext {
    if x.NegInf? then NegInf else Fin(x.v * scale)
  }

  /** The tiled kernels mask first and scale second; the scale is positive, so masked stays masked. */
  function ScoreAt(q: Row, k: Row, i: nat, j: nat, causal: bool, scale: real): Ext
    requires |q| == |k|
  {
    Scaled(if causal && j > i then NegInf else Fin(Dot(q, k)), scale)
  }

  /** Safe attention scales first and masks second. */
  function SafeScoreAt(q: Row, k: Row, i: nat, j: nat, causal: bool, scale: real): Ext
    requires |q| == |k|
  {
    if causal && j > i then NegInf else Fin(Dot(q, k) * scale)
  }

  predicate KeysOk(q: Row, K: seq<Row>) {
    forall j | 0 <= j < |K| :: |K[j]| == |q|
  }

  function RowScores(q: Row, K: seq<Row>, i: nat, causal: bool, scale: real): (r: seq<Ext>)
    requires KeysOk(q, K)
    ensures |r| == |K| && forall j: nat | j < |K| :: r[j] == ScoreAt(q, K[j], i, j, causal, scale)
  {
    if K == [] then []
    else RowScores(q, K[..|K| - 1], i, causal, scale) + [ScoreAt(q, K[|K| - 1], i, |K| - 1, causal, scale)]
  }

  function SafeRowScores(q: Row, K: seq<Row>, i: nat, causal: bool, scale: real): (r: seq<Ext>)
    requires KeysOk(q, K)
    ensures |r| == |K| && forall j: nat | j < |K| :: r[j] == SafeScoreAt(q, K[j], i, j, causal, scale)
  {
    if K == [] then []
    else SafeRowScores(q, K[..|K| - 1], i, causal, scale) + [SafeScoreAt(q, K[|K| - 1], i, |K| - 1, causal, scale)]
  }

  lemma SameScores(q: Row, K: seq<Row>, i: nat, causal: bool, scale: real)
    requires KeysOk(q, K)
    ensures RowScores(q, K, i, causal, scale) == SafeRowScores(q, K, i, causal, scale)
  {
    hide Dot, RowScores, SafeRowScores;
    var a, b := RowScores(q, K, i, causal, scale), SafeRowScores(q, K, i, causal, scale);
    forall j: nat | j < |K|
      ensures a[j] == b[j]
    {
      assert a[j] == ScoreAt(q, K[j], i, j, causal, scale) && b[j] == SafeScoreAt(q, K[j], i, j, causal, scale);
    }
  }

  // ---- Causal tiles --------------------------------------------------------------------------

  lemma {:induction false} AllMasked(s: seq<Ext>)
    requires forall j | 0 <= j < |s| :: s[j].NegInf?
    ensures MaxOf(s).NegInf?
  {
    if s != [] {
      AllMasked(s[..|s| - 1]);
    }
  }

  /** A tile is skipped exactly when the causal mask covers all its rows: the row `qs + BM - 1` sees
      the tile's first key unless the tile starts past it. */
  lemma SkippedIsMasked(q: Row, K: seq<Row>, i: nat, scale: real, kv: nat, end: nat)
    requires KeysOk(q, K) && kv < end <= |K|
    ensures MaxOf(RowScores(q, K, i, true, scale)[kv..end]).NegInf? <==> i < kv
  {
    var s := RowScores(q, K, i, true, scale);
    if i < kv {
      AllMasked(s[kv..end]);
    } else {
      assert s[kv..end][0] == s[kv] && s[kv].Fin?;
      OneFinite(s[kv..end], 0);
    }
  }

  /** Row `i` sees some key of the tile `kv..end`. */
  predicate RowLive(q: Row, K: seq<Row>, i: nat, scale: real, kv: nat, end: nat)
    requires KeysOk(q, K) && kv < end <= |K|
  {
    MaxOf(RowScores(q, K, i, true, scale)[kv..end]).Fin?
  }

  /** The check lets a tile be processed whose first rows see no key; their maximum would be minus
      infinity and their exponentials undefined.  All rows see a key exactly if the tile starts at or
      before the first row. */
  lemma ProcessedRowsLive(Q: seq<Row>, K: seq<Row>, scale: real, qs: nat, BM: nat, kv: nat, end: nat)
    requires 0 < BM && qs + BM <= |Q| && kv < end <= |K| && !Skips(true, kv, qs, BM)
    requires forall i | 0 <= i < |Q| :: KeysOk(Q[i], K)
    ensures (forall i: nat | qs <= i < qs + BM :: RowLive(Q[i], K, i, scale, kv, end)) <==> kv <= qs
  {
    hide RowScores;
    forall i: nat | qs <= i < qs + BM
      ensures RowLive(Q[i], K, i, scale, kv, end) <==> kv <= i
    {
      SkippedIsMasked(Q[i], K, i, scale, kv, end);
    }
    assert RowLive(Q[qs], K, qs, scale, kv, end) <==> kv <= qs;
  }

  predicate Skips(causal: bool, kv: nat, qs: nat, BM: nat) {
    causal && kv >= qs + BM
  }

  /** With key tiles a multiple of the query tiles, as with 64 and 32, it always does. */
  lemma ProcessedStartsBefore(qs: nat, kv: nat, BM: nat, BN: nat)
    requires BM > 0 && BN > 0 && Aligned(qs, BM) && Aligned(BN, BM) && Aligned(kv, BN) && kv < qs + BM
    ensures kv <= qs
  {
    AlignedCoarser(kv, BM, BN);
    if qs < kv {
      AlignedGap(qs, kv, BM);
    }
  }

  lemma {:induction false} AlignedCoarser(n: nat, BM: nat, BN: nat)
    requires BM > 0 && BN > 0 && Aligned(BN, BM) && Aligned(n, BN)
    ensures Aligned(n, BM)
  {
    if n > 0 {
      AlignedCoarser(n - BN, BM, BN);
      AlignedAdd(n - BN, BN, BM);
    }
  }

  /** Otherwise it need not: query tiles of 4 and key tiles of 2 process a tile whose rows 0 and 1 see
      no key. */
  lemma MisalignedTileIsMasked(q: Row, K: seq<Row>, scale: real)
    requires KeysOk(q, K) && |K| == 4
    ensures Aligned(2, 2) && 2 < 0 + 4 && MaxOf(RowScores(q, K, 0, true, scale)[2..4]).NegInf?
  {
    SkippedIsMasked(q, K, 0, scale, 2, 4);
    assert Aligned(0, 2);
  }

  /** Every row of query tile `qs` sees a key of key tile `kv`. */
  ghost predicate TileRowsLive(Q: seq<Row>, K: seq<Row>, scale: real, qs: nat, BM: nat, kv: nat, BN: nat) {
    && qs + BM <= |Q| && kv < kv + BN <= |K| && (forall i | 0 <= i < |Q| :: KeysOk(Q[i], K))
    && forall i: nat | qs <= i < qs + BM :: RowLive(Q[i], K, i, scale, kv, kv + BN)
  }

  /** The tiles a run processes. */
  predicate Processes(n: nat, qs: nat, BM: nat, kv: nat, BN: nat)
    requires BM > 0 && BN > 0
  {
    qs < n && kv < n && Aligned(qs, BM) && Aligned(kv, BN) && !Skips(true, kv, qs, BM)
  }

  /** Over a whole run, every processed tile has only live rows exactly if key tiles are a multiple of
      query tiles. */
  lemma RunRowsLive(Q: seq<Row>, K: seq<Row>, scale: real, BM: nat, BN: nat)
    requires BM > 0 && BN > 0 && |K| == |Q| > 0 && Aligned(|Q|, BM) && Aligned(|Q|, BN)
    requires forall i | 0 <= i < |Q| :: KeysOk(Q[i], K)
    ensures (forall qs: nat, kv: nat | Processes(|Q|, qs, BM, kv, BN) :: TileRowsLive(Q, K, scale, qs, BM, kv, BN))
       <==> Aligned(BN, BM)
  {
    hide RowLive, Aligned;
    forall qs: nat, kv: nat | Processes(|Q|, qs, BM, kv, BN)
      ensures TileRowsLive(Q, K, scale, qs, BM, kv, BN) <==> kv <= qs
    {
      NextTile(|Q|, qs, BM);
      NextTile(|Q|, kv, BN);
      ProcessedRowsLive(Q, K, scale, qs, BM, kv, kv + BN);
    }
    if Aligned(BN, BM) {
      forall qs: nat, kv: nat | Processes(|Q|, qs, BM, kv, BN)
        ensures TileRowsLive(Q, K, scale, qs, BM, kv, BN)
      {
        ProcessedStartsBefore(qs, kv, BM, BN);
      }
    } else {
      var qs := StraddledTile(|Q|, BM, BN);
      assert Processes(|Q|, qs, BM, BN, BN) && !TileRowsLive(Q, K, scale, qs, BM, BN, BN);
    }
  }

  /** The second key tile starts inside a query tile. */
  lemma StraddledTile(n: nat, BM: nat, BN: nat) returns (qs: nat)
    requires BM > 0 && BN > 0 && n > 0 && Aligned(n, BM) && Aligned(n, BN) && !Aligned(BN, BM)
    ensures Processes(n, qs, BM, BN, BN) && qs < BN
  {
    qs := AlignLen(BN, BM);
    assert Aligned(0, BN) && Aligned(BN, BN);
    AlignedGap(0, n, BN);
    assert n != BN;
  }

  lemma NextTile(n: nat, done: nat, B: nat)
    requires B > 0 && Aligned(n, B) && Aligned(done, B) && done < n
    ensures done + B <= n && Aligned(done + B, B)
  {
    AlignedGap(done, n, B);
    AlignedAdd(done, B, B);
    assert Aligned(0, B);
  }

  // ---- Rows ----------------------------------------------------------------------------------

  datatype Head = Head(Q: seq<Row>, K: seq<Row>, V: seq<Row>, D: nat, causal: bool, scale: real)

  predicate HeadsOk(h: Head) {
    && |h.K| == |h.Q| == |h.V| && h.scale > 0.0
    && forall j | 0 <= j < |h.Q| :: |h.Q[j]| == h.D && |h.K[j]| == h.D && |h.V[j]| == h.D
  }

  function ScoresOf(h: Head, i: nat): (s: seq<Ext>)
    requires HeadsOk(h) && i < |h.Q|
    ensures |s| == |h.V|
  {
    RowScores(h.Q[i], h.K, i, h.causal, h.scale)
  }

  /** Row `i` of safe softmax attention. */
  ghost predicate IsSafeRow(exp: real -> real, h: Head, i: nat, o: Row)
    requires HeadsOk(h) && i < |h.Q|
  {
    var s := SafeRowScores(h.Q[i], h.K, i, h.causal, h.scale);
    && MaxOf(s).Fin? && Mass(exp, s, MaxOf(s).v) > 0.0 && |o| == h.D
    && forall d: nat | d < h.D :: o[d] == SafeAttention(exp, s, h.V, MaxOf(s).v, Mass(exp, s, MaxOf(s).v), d)
  }

  /** The first `n` keys have been folded into row `i`'s state. */
  predicate RowCarries(exp: real -> real, h: Head, i: nat, n: nat, st: State)
    requires HeadsOk(h) && i < |h.Q| && n <= |h.V|
  {
    Carries(exp, ScoresOf(h, i)[..n], h.V[..n], h.D, st)
  }

  lemma SkipCarries(exp: real -> real, h: Head, i: nat, kv: nat, end: nat, st: State)
    requires IsExp(exp) && HeadsOk(h) && i < |h.Q| && kv < end <= |h.V| && h.causal && i < kv
    requires RowCarries(exp, h, i, kv, st)
    ensures RowCarries(exp, h, i, end, st)
  {
    hide Carries, MaxOf, RowScores;
    var s := ScoresOf(h, i);
    SkippedIsMasked(h.Q[i], h.K, i, h.scale, kv, end);
    assert s[..end] == s[..kv] + s[kv..end] && h.V[..end] == h.V[..kv] + h.V[kv..end];
    MaskedCarries(exp, s[..kv], h.V[..kv], s[kv..end], h.V[kv..end], h.D, st);
  }

  lemma TileLive(h: Head, i: nat, kv: nat, end: nat)
    requires HeadsOk(h) && i < |h.Q| && kv < end <= |h.V| && (h.causal ==> kv <= i)
    ensures MaxOf(ScoresOf(h, i)[kv..end]).Fin? && ValuesOk(ScoresOf(h, i)[kv..end], h.V[kv..end], h.D)
  {
    var s := ScoresOf(h, i);
    assert s[kv..end][0] == s[kv] && s[kv].Fin?;
    OneFinite(s[kv..end], 0);
  }

  /** The tile's part of row `i`. */
  function RowTile(exp: real -> real, h: Head, i: nat, kv: nat, end: nat): (t: State)
    requires HeadsOk(h) && i < |h.Q| && kv < end <= |h.V| && (h.causal ==> kv <= i)
    ensures t.m.Fin? && |t.o| == h.D
  {
    TileLive(h, i, kv, end);
    TileState(exp, ScoresOf(h, i)[kv..end], h.V[kv..end], h.D)
  }

  lemma FoldRow(exp: real -> real, h: Head, i: nat, kv: nat, end: nat, st: State)
    requires IsExp(exp) && HeadsOk(h) && i < |h.Q| && kv < end <= |h.V| && (h.causal ==> kv <= i)
    requires RowCarries(exp, h, i, kv, st)
    ensures |st.o| == h.D && RowCarries(exp, h, i, end, Fold(exp, st, RowTile(exp, h, i, kv, end)))
    ensures Fold(exp, st, RowTile(exp, h, i, kv, end)).m.Fin?
  {
    hide MaxOf, RowScores, Fold, TileState;
    TileLive(h, i, kv, end);
    var s := ScoresOf(h, i);
    CarriedShape(exp, s[..kv], h.V[..kv], h.D, st);
    assert s[..end] == s[..kv] + s[kv..end] && h.V[..end] == h.V[..kv] + h.V[kv..end];
    FoldCarries(exp, s[..kv], h.V[..kv], s[kv..end], h.V[kv..end], h.D, st, RowTile(exp, h, i, kv, end));
    FoldLive(exp, st, RowTile(exp, h, i, kv, end));
  }

  lemma FoldLive(exp: real -> real, st: State, tile: State)
    requires tile.m.Fin? && |st.o| == |tile.o|
    ensures Fold(exp, st, tile).m.Fin?
  {
  }

  function Divided(o: Row, l: real): (r: Row)
    requires l != 0.0
    ensures |r| == |o| && forall d: nat | d < |o| :: r[d] == o[d] / l
  {
    if o == [] then [] else Divided(o[..|o| - 1], l) + [o[|o| - 1] / l]
  }

  /** A row that has seen all keys is, once normalised, a row of safe attention. */
  lemma FinishRow(exp: real -> real, h: Head, i: nat, st: State)
    requires IsExp(exp) && HeadsOk(h) && i < |h.Q| && RowCarries(exp, h, i, |h.V|, st) && st.m.Fin?
    ensures |st.o| == h.D && st.l > 0.0 && IsSafeRow(exp, h, i, Divided(st.o, st.l))
  {
    hide MaxOf, RowScores, SafeRowScores, SafeAttention, Mass, Moment, Attention, Divided;
    var s := ScoresOf(h, i);
    assert s[..|h.V|] == s && h.V[..|h.V|] == h.V;
    SameScores(h.Q[i], h.K, i, h.causal, h.scale);
    CarriedShape(exp, s, h.V, h.D, st);
    MassSign(exp, s, st.m.v);
    forall d: nat | d < h.D
      ensures Divided(st.o, st.l)[d] == SafeAttention(exp, s, h.V, st.m.v, Mass(exp, s, st.m.v), d)
    {
      CarriedIsAttention(exp, s, h.V, h.D, st, d);
      SafeIsAttention(exp, s, h.V, h.D, d);
      DividedAt(st.o, st.l, d);
    }
  }

  lemma DividedAt(o: Row, l: real, d: nat)
    requires l != 0.0 && d < |o|
    ensures Divided(o, l)[d] == o[d] / l
  {
  }

  // ---- FA2 -----------------------------------------------------------------------------------

  method FlashAttentionV2(exp: real -> real, h: Head, BM: nat, BN: nat) returns (o: array<Row>)
    requires IsExp(exp) && HeadsOk(h) && BM > 0 && BN > 0 && (h.causal ==> Aligned(BN, BM))
    requires Aligned(|h.Q|, BM) && Aligned(|h.Q|, BN)
    ensures o.Length == |h.Q| && forall i: nat | i < |h.Q| :: IsSafeRow(exp, h, i, o[i])
  {
    hide IsExp, HeadsOk, IsSafeRow, RowCarries, Fold, Divided, RowTile;
    SameLengths(h);
    var n := |h.Q|;
    o := new Row[n](_ => []);
    var qs := 0;
    assert Aligned(0, BM) && Aligned(0, BN);
    while qs < n
      invariant qs <= n && Aligned(qs, BM)
      invariant forall i: nat | i < qs :: IsSafeRow(exp, h, i, o[i])
      decreases n - qs
    {
      NextTile(n, qs, BM);
      var st := new State[BM](_ => Start(h.D));
      StartRows(exp, h, qs, BM, st[..]);
      var kv := 0;
      while kv < n
        invariant kv <= n && Aligned(kv, BN)
        invariant forall i: nat | i < qs :: IsSafeRow(exp, h, i, o[i])
        invariant forall r: nat | r < BM :: RowCarries(exp, h, qs + r, kv, st[r]) && (kv > 0 ==> st[r].m.Fin?)
        decreases n - kv
      {
        NextTile(n, kv, BN);
        if !Skips(h.causal, kv, qs, BM) {
          if h.causal {
            ProcessedStartsBefore(qs, kv, BM, BN);
          }
          FoldTile(exp, h, qs, BM, kv, BN, st);
        } else {
          forall r: nat | r < BM
            ensures RowCarries(exp, h, qs + r, kv + BN, st[r])
          {
            SkipCarries(exp, h, qs + r, kv, kv + BN, st[r]);
          }
        }
        kv := kv + BN;
      }
      for r := 0 to BM
        invariant forall i: nat | i < qs + r :: IsSafeRow(exp, h, i, o[i])
        invariant forall p: nat | p < BM :: RowCarries(exp, h, qs + p, n, st[p]) && st[p].m.Fin?
      {
        FinishRow(exp, h, qs + r, st[r]);
        o[qs + r] := Divided(st[r].o, st[r].l);
      }
      qs := qs + BM;
    }
  }

  lemma SameLengths(h: Head)
    requires HeadsOk(h)
    ensures |h.V| == |h.Q| == |h.K|
  {
  }

  lemma StartRows(exp: real -> real, h: Head, qs: nat, BM: nat, st: seq<State>)
    requires HeadsOk(h) && qs + BM <= |h.Q| && |st| == BM && forall r | 0 <= r < BM :: st[r] == Start(h.D)
    ensures forall r: nat | r < BM :: RowCarries(exp, h, qs + r, 0, st[r])
  {
    forall r: nat | r < BM
      ensures RowCarries(exp, h, qs + r, 0, st[r])
    {
      assert ScoresOf(h, qs + r)[..0] == [] && h.V[..0] == [];
    }
  }

  /** One tile of FA2: every row of the query tile. */
  method FoldTile(exp: real -> real, h: Head, qs: nat, BM: nat, kv: nat, BN: nat, st: array<State>)
    requires IsExp(exp) && HeadsOk(h) && st.Length == BM && qs + BM <= |h.Q| && BN > 0 && kv + BN <= |h.V|
    requires h.causal ==> kv <= qs
    requires forall r: nat | r < BM :: RowCarries(exp, h, qs + r, kv, st[r])
    modifies st
    ensures forall r: nat | r < BM :: RowCarries(exp, h, qs + r, kv + BN, st[r]) && st[r].m.Fin?
  {
    hide IsExp, HeadsOk, RowCarries, Fold, RowTile;
    for r := 0 to BM
      invariant forall p: nat | p < r :: RowCarries(exp, h, qs + p, kv + BN, st[p]) && st[p].m.Fin?
      invariant forall p: nat | r <= p < BM :: RowCarries(exp, h, qs + p, kv, st[p])
    {
      FoldRow(exp, h, qs + r, kv, kv + BN, st[r]);
      st[r] := Fold(exp, st[r], RowTile(exp, h, qs + r, kv, kv + BN));
    }
  }

  // ---- FA1 -----------------------------------------------------------------------------------

  /** FA1's stored output, multiplied back by its mass. */
  function Unnormalised(st: State): State {
    State(st.m, st.l, Scale(st.o, st.l))
  }

  /** FA1's update: the tile joins the denormalised output, which is normalised again. */
  function FoldNormalised(exp: real -> real, st: State, tile: State): State
    requires tile.m.Fin? && |st.o| == |tile.o| && Fold(exp, Unnormalised(st), tile).l != 0.0
  {
    var f := Fold(exp, Unnormalised(st), tile);
    State(f.m, f.l, Divided(f.o, f.l))
  }

  lemma NormaliseRoundTrip(f: State)
    requires f.l != 0.0
    ensures Unnormalised(State(f.m, f.l, Divided(f.o, f.l))) == f
  {
    hide Divided, Scale;
    var r := Scale(Divided(f.o, f.l), f.l);
    forall d: nat | d < |f.o|
      ensures r[d] == f.o[d]
    {
      DividedAt(f.o, f.l, d);
      ScaleAt(Divided(f.o, f.l), f.l, d);
      BackAgain(f.o[d], f.l);
    }
    assert |r| == |f.o| && r == f.o;
  }

  lemma ScaleAt(v: Row, s: real, d: nat)
    requires d < |v|
    ensures |Scale(v, s)| == |v| && Scale(v, s)[d] == v[d] * s
  {
  }

  lemma BackAgain(x: real, l: real)
    requires l != 0.0
    ensures x / l * l == x
  {
  }

  /** Whatever an unwritten output row holds, a mass of zero erases it. */
  lemma {:induction false} UnwrittenErased(o: Row)
    ensures Scale(o, 0.0) == Zeros(|o|)
  {
    if o != [] {
      UnwrittenErased(o[..|o| - 1]);
    }
  }

  predicate NormalisedCarries(exp: real -> real, h: Head, i: nat, n: nat, st: State)
    requires HeadsOk(h) && i < |h.Q| && n <= |h.V|
  {
    RowCarries(exp, h, i, n, Unnormalised(st))
  }

  lemma NormalisedFold(exp: real -> real, h: Head, i: nat, kv: nat, end: nat, st: State)
    requires IsExp(exp) && HeadsOk(h) && i < |h.Q| && kv < end <= |h.V| && (h.causal ==> kv <= i)
    requires NormalisedCarries(exp, h, i, kv, st)
    ensures var tile := RowTile(exp, h, i, kv, end);
            && |st.o| == |tile.o| && Fold(exp, Unnormalised(st), tile).l != 0.0
            && NormalisedCarries(exp, h, i, end, FoldNormalised(exp, st, tile)) && FoldNormalised(exp, st, tile).m.Fin?
  {
    hide RowTile, Fold, Scale, Divided, Mass, MaxOf, RowScores;
    FoldRow(exp, h, i, kv, end, Unnormalised(st));
    ScaleLength(st.o, st.l);
    var f := Fold(exp, Unnormalised(st), RowTile(exp, h, i, kv, end));
    LiveMass(exp, h, i, end, f);
    NormaliseRoundTrip(f);
  }

  lemma ScaleLength(v: Row, s: real)
    ensures |Scale(v, s)| == |v|
  {
  }

  lemma LiveMass(exp: real -> real, h: Head, i: nat, n: nat, st: State)
    requires IsExp(exp) && HeadsOk(h) && i < |h.Q| && n <= |h.V| && RowCarries(exp, h, i, n, st) && st.m.Fin?
    ensures st.l > 0.0
  {
    hide RowScores, Moment, Mass;
    MassSign(exp, ScoresOf(h, i)[..n], st.m.v);
  }

  lemma FinishNormalised(exp: real -> real, h: Head, i: nat, st: State)
    requires IsExp(exp) && HeadsOk(h) && i < |h.Q| && NormalisedCarries(exp, h, i, |h.V|, st) && st.m.Fin?
    ensures IsSafeRow(exp, h, i, st.o)
  {
    hide RowCarries, IsSafeRow, Divided, Scale;
    var u := Unnormalised(st);
    FinishRow(exp, h, i, u);
    forall d: nat | d < |st.o|
      ensures Divided(u.o, u.l)[d] == st.o[d]
    {
      ScaleAt(st.o, st.l, d);
      DividedAt(u.o, u.l, d);
      ThereAndBack(st.o[d], st.l);
    }
    ScaleLength(st.o, st.l);
    assert Divided(u.o, u.l) == st.o;
  }

  lemma ThereAndBack(x: real, l: real)
    requires l != 0.0
    ensures x * l / l == x
  {
    QuotientOf(x * l, l, x);
  }

  lemma QuotientOf(y: real, l: real, x: real)
    requires l != 0.0 && y == x * l
    ensures y / l == x
  {
  }

  /** The output starts unwritten: any rows of the right width. */
  method FlashAttentionV1(exp: real -> real, h: Head, BM: nat, BN: nat, o: array<Row>)
    requires IsExp(exp) && HeadsOk(h) && BM > 0 && BN > 0 && (h.causal ==> Aligned(BN, BM))
    requires Aligned(|h.Q|, BM) && Aligned(|h.Q|, BN)
    requires o.Length == |h.Q| && forall i | 0 <= i < o.Length :: |o[i]| == h.D
    modifies o
    ensures forall i: nat | i < |h.Q| :: IsSafeRow(exp, h, i, o[i])
  {
    hide IsExp, HeadsOk, IsSafeRow, NormalisedCarries, RowTile;
    SameLengths(h);
    var n := |h.Q|;
    var l := new real[n](_ => 0.0);
    var m := new Ext[n](_ => NegInf);
    assert Aligned(0, BM) && Aligned(0, BN);
    StartNormalised(exp, h, o[..], m[..], l[..]);
    var kv := 0;
    while kv < n
      invariant kv <= n && Aligned(kv, BN)
      invariant RowsAt(exp, h, o[..], m[..], l[..], 0, n, kv)
      decreases n - kv
    {
      NextTile(n, kv, BN);
      var qs := 0;
      while qs < n
        invariant qs <= n && Aligned(qs, BM)
        invariant RowsAt(exp, h, o[..], m[..], l[..], 0, qs, kv + BN)
        invariant RowsAt(exp, h, o[..], m[..], l[..], qs, n, kv)
        decreases n - qs
      {
        NextTile(n, qs, BM);
        if !Skips(h.causal, kv, qs, BM) {
          if h.causal {
            ProcessedStartsBefore(qs, kv, BM, BN);
          }
          NormaliseTile(exp, h, qs, BM, kv, BN, o, m, l);
        } else {
          SkipRows(exp, h, qs, BM, kv, BN, o[..], m[..], l[..]);
        }
        qs := qs + BM;
      }
      kv := kv + BN;
    }
    forall i: nat | i < n
      ensures IsSafeRow(exp, h, i, o[i])
    {
      RowAtEnd(exp, h, o[..], m[..], l[..], i);
    }
  }

  /** Rows `lo..hi` have folded the first `k` keys. */
  predicate RowsAt(exp: real -> real, h: Head, o: seq<Row>, m: seq<Ext>, l: seq<real>, lo: nat, hi: nat, k: nat) {
    && HeadsOk(h) && |o| == |m| == |l| == |h.Q| && lo <= hi <= |h.Q| && k <= |h.V|
    && forall i: nat | lo <= i < hi :: RowAt(exp, h, i, k, State(m[i], l[i], o[i]))
  }

  predicate RowAt(exp: real -> real, h: Head, i: nat, k: nat, st: State)
    requires HeadsOk(h) && i < |h.Q| && k <= |h.V|
  {
    NormalisedCarries(exp, h, i, k, st) && (k > 0 ==> st.m.Fin?)
  }

  lemma StartNormalised(exp: real -> real, h: Head, o: seq<Row>, m: seq<Ext>, l: seq<real>)
    requires HeadsOk(h) && |o| == |m| == |l| == |h.Q| && (forall i | 0 <= i < |o| :: |o[i]| == h.D)
    requires (forall i | 0 <= i < |m| :: m[i] == NegInf) && (forall i | 0 <= i < |l| :: l[i] == 0.0)
    ensures RowsAt(exp, h, o, m, l, 0, |h.Q|, 0)
  {
    forall i: nat | i < |h.Q|
      ensures RowAt(exp, h, i, 0, State(m[i], l[i], o[i]))
    {
      UnwrittenErased(o[i]);
      assert ScoresOf(h, i)[..0] == [] && h.V[..0] == [];
    }
  }

  lemma SkipRows(exp: real -> real, h: Head, qs: nat, BM: nat, kv: nat, BN: nat, o: seq<Row>, m: seq<Ext>, l: seq<real>)
    requires IsExp(exp) && BN > 0 && qs + BM <= |h.Q| && kv + BN <= |h.V| && h.causal && kv >= qs + BM
    requires RowsAt(exp, h, o, m, l, 0, qs, kv + BN) && RowsAt(exp, h, o, m, l, qs, |h.Q|, kv)
    ensures RowsAt(exp, h, o, m, l, 0, qs + BM, kv + BN) && RowsAt(exp, h, o, m, l, qs + BM, |h.Q|, kv)
  {
    hide RowCarries, IsExp, HeadsOk;
    forall i: nat | qs <= i < qs + BM
      ensures RowAt(exp, h, i, kv + BN, State(m[i], l[i], o[i]))
    {
      assert RowAt(exp, h, i, kv, State(m[i], l[i], o[i]));
      SkipCarries(exp, h, i, kv, kv + BN, Unnormalised(State(m[i], l[i], o[i])));
    }
  }

  lemma RowAtEnd(exp: real -> real, h: Head, o: seq<Row>, m: seq<Ext>, l: seq<real>, i: nat)
    requires IsExp(exp) && i < |h.Q| && RowsAt(exp, h, o, m, l, 0, |h.Q|, |h.V|)
    ensures |o| == |h.Q| && HeadsOk(h) && IsSafeRow(exp, h, i, o[i])
  {
    hide NormalisedCarries, IsSafeRow;
    assert RowAt(exp, h, i, |h.V|, State(m[i], l[i], o[i]));
    FinishNormalised(exp, h, i, State(m[i], l[i], o[i]));
  }

  method NormaliseTile(
    exp: real -> real, h: Head, qs: nat, BM: nat, kv: nat, BN: nat, o: array<Row>, m: array<Ext>, l: array<real>)
    requires IsExp(exp) && HeadsOk(h) && BN > 0 && qs + BM <= |h.Q| && kv + BN <= |h.V| && (h.causal ==> kv <= qs)
    requires RowsAt(exp, h, o[..], m[..], l[..], 0, qs, kv + BN) && RowsAt(exp, h, o[..], m[..], l[..], qs, |h.Q|, kv)
    modifies o, m, l
    ensures RowsAt(exp, h, o[..], m[..], l[..], 0, qs + BM, kv + BN)
    ensures RowsAt(exp, h, o[..], m[..], l[..], qs + BM, |h.Q|, kv)
  {
    hide IsExp, HeadsOk, NormalisedCarries, FoldNormalised, Fold, RowTile;
    for r := 0 to BM
      invariant RowsAt(exp, h, o[..], m[..], l[..], 0, qs + r, kv + BN)
      invariant RowsAt(exp, h, o[..], m[..], l[..], qs + r, |h.Q|, kv)
    {
      var i := qs + r;
      assert RowAt(exp, h, i, kv, State(m[i], l[i], o[i]));
      NormalisedFold(exp, h, i, kv, kv + BN, State(m[i], l[i], o[i]));
      var next := FoldNormalised(exp, State(m[i], l[i], o[i]), RowTile(exp, h, i, kv, kv + BN));
      o[i], m[i], l[i] := next.o, next.m, next.l;
    }
  }

  /** FA1 and FA2 produce the same rows. */
  lemma VersionsAgree(exp: real -> real, h: Head, v1: seq<Row>, v2: seq<Row>)
    requires HeadsOk(h) && |v1| == |v2| == |h.Q|
    requires forall i: nat | i < |h.Q| :: IsSafeRow(exp, h, i, v1[i]) && IsSafeRow(exp, h, i, v2[i])
    ensures v1 == v2
  {
    hide RowScores, SafeRowScores, SafeAttention, Mass, MaxOf;
    forall i: nat | i < |h.Q|
      ensures v1[i] == v2[i]
    {
      assert IsSafeRow(exp, h, i, v1[i]) && IsSafeRow(exp, h, i, v2[i]);
    }
  }
}
