/** Softmax attention over the reals and its online form.  A score is a real or minus infinity; the
    exponential is any positive function that turns sums into products.  An exponential of minus
    infinity is zero; one of infinity minus infinity is never taken. */
module OnlineSoftmax {
  import opened RealVectors

  datatype Ext = NegInf | Fin(v: real)

  predicate Multiplies(exp: real -> real, a: real, b: real) {
    exp(a + b) == exp(a) * exp(b)
  }

  predicate Positive(exp: real -> real, a: real) {
    exp(a) > 0.0
  }

  ghost predicate IsExp(exp: real -> real) {
    (forall a: real :: Positive(exp, a)) && (forall a: real, b: real :: Multiplies(exp, a, b))
  }

  lemma ExpAdd(exp: real -> real, a: real, b: real)
    requires IsExp(exp)
    ensures exp(a + b) == exp(a) * exp(b) && exp(a) > 0.0
  {
    assert Multiplies(exp, a, b) && Positive(exp, a);
  }

  function ExtMax(a: Ext, b: Ext): Ext {
    if a.NegInf? then b else if b.NegInf? then a else if a.v >= b.v then a else b
  }

  function MaxOf(s: seq<Ext>): Ext {
    if s == [] then NegInf else ExtMax(MaxOf(s[..|s| - 1]), s[|s| - 1])
  }

  /** `exp(a - c)`. */
  function ExpFrom(exp: real -> real, a: Ext, c: real): real {
    if a.NegInf? then 0.0 else exp(a.v - c)
  }

  /** The softmax denominator relative to `c`. */
  function Mass(exp: real -> real, s: seq<Ext>, c: real): real {
    if s == [] then 0.0 else Mass(exp, s[..|s| - 1], c) + ExpFrom(exp, s[|s| - 1], c)
  }

  /** Column `d` of the softmax numerator relative to `c`. */
  function Moment(exp: real -> real, s: seq<Ext>, V: seq<Row>, c: real, d: nat): real
    requires |V| == |s| && forall j | 0 <= j < |V| :: d < |V[j]|
  {
    if s == [] then 0.0
    else Moment(exp, s[..|s| - 1], V[..|s| - 1], c, d) + ExpFrom(exp, s[|s| - 1], c) * V[|s| - 1][d]
  }

  predicate ValuesOk(s: seq<Ext>, V: seq<Row>, D: nat) {
    |V| == |s| && forall j | 0 <= j < |V| :: |V[j]| == D
  }

  /** Softmax attention: the weighted mean of the values, with the plain exponentials as weights. */
  function Attention(exp: real -> real, s: seq<Ext>, V: seq<Row>, D: nat, d: nat): real
    requires ValuesOk(s, V, D) && d < D && Mass(exp, s, 0.0) > 0.0
  {
    Moment(exp, s, V, 0.0, d) / Mass(exp, s, 0.0)
  }

  // ---- Concatenation, shift, masking ---------------------------------------------------------

  lemma {:induction false} MaxConcat(a: seq<Ext>, b: seq<Ext>)
    ensures MaxOf(a + b) == ExtMax(MaxOf(a), MaxOf(b))
  {
    if b == [] {
      assert a + b == a;
    } else {
      MaxConcat(a, b[..|b| - 1]);
      assert (a + b)[..|a + b| - 1] == a + b[..|b| - 1];
    }
  }

  lemma {:induction false} MassConcat(exp: real -> real, a: seq<Ext>, b: seq<Ext>, c: real)
    ensures Mass(exp, a + b, c) == Mass(exp, a, c) + Mass(exp, b, c)
  {
    if b == [] {
      assert a + b == a;
    } else {
      MassConcat(exp, a, b[..|b| - 1], c);
      assert (a + b)[..|a + b| - 1] == a + b[..|b| - 1];
    }
  }

  lemma {:induction false} MomentConcat(exp: real -> real, a: seq<Ext>, b: seq<Ext>, V: seq<Row>, W: seq<Row>,
      c: real, d: nat)
    requires |V| == |a| && (forall j | 0 <= j < |V| :: d < |V[j]|)
    requires |W| == |b| && (forall j | 0 <= j < |W| :: d < |W[j]|)
    ensures Moment(exp, a + b, V + W, c, d) == Moment(exp, a, V, c, d) + Moment(exp, b, W, c, d)
  {
    if b == [] {
      assert a + b == a && V + W == V;
    } else {
      var n := |b| - 1;
      MomentConcat(exp, a, b[..n], V, W[..n], c, d);
      assert (a + b)[..|a + b| - 1] == a + b[..n] && (V + W)[..|a + b| - 1] == V + W[..n];
    }
  }

  lemma ExpFromShift(exp: real -> real, a: Ext, c: real, c': real)
    requires IsExp(exp)
    ensures ExpFrom(exp, a, c') == ExpFrom(exp, a, c) * exp(c - c')
  {
    if a.Fin? {
      ExpAdd(exp, a.v - c, c - c');
      assert (a.v - c) + (c - c') == a.v - c';
    }
  }

  lemma {:induction false} MassShift(exp: real -> real, s: seq<Ext>, c: real, c': real)
    requires IsExp(exp)
    ensures Mass(exp, s, c') == Mass(exp, s, c) * exp(c - c')
  {
    if s != [] {
      MassShift(exp, s[..|s| - 1], c, c');
      ExpFromShift(exp, s[|s| - 1], c, c');
    }
  }

  lemma {:induction false} MomentShift(exp: real -> real, s: seq<Ext>, V: seq<Row>, c: real, c': real, d: nat)
    requires IsExp(exp) && |V| == |s| && forall j | 0 <= j < |V| :: d < |V[j]|
    ensures Moment(exp, s, V, c', d) == Moment(exp, s, V, c, d) * exp(c - c')
  {
    if s != [] {
      var n := |s| - 1;
      MomentShift(exp, s[..n], V[..n], c, c', d);
      ExpFromShift(exp, s[n], c, c');
      Regroup(ExpFrom(exp, s[n], c), exp(c - c'), V[n][d]);
    }
  }

  lemma Regroup(a: real, k: real, v: real)
    ensures (a * k) * v == (a * v) * k
  {
    assert (a * k) * v == a * (k * v) == a * (v * k) == (a * v) * k;
  }

  /** Scores that are all minus infinity weigh nothing; one finite score makes the mass positive. */
  lemma {:induction false} MassSign(exp: real -> real, s: seq<Ext>, c: real)
    requires IsExp(exp)
    ensures MaxOf(s).NegInf? ==> Mass(exp, s, c) == 0.0
    ensures MaxOf(s).Fin? ==> Mass(exp, s, c) > 0.0
  {
    if s != [] {
      MassSign(exp, s[..|s| - 1], c);
      if s[|s| - 1].Fin? {
        ExpAdd(exp, s[|s| - 1].v - c, 0.0);
      }
    }
  }

  lemma {:induction false} MomentMasked(exp: real -> real, s: seq<Ext>, V: seq<Row>, c: real, d: nat)
    requires MaxOf(s).NegInf? && |V| == |s| && forall j | 0 <= j < |V| :: d < |V[j]|
    ensures Moment(exp, s, V, c, d) == 0.0
  {
    if s != [] {
      MomentMasked(exp, s[..|s| - 1], V[..|s| - 1], c, d);
    }
  }

  /** The quotient does not depend on the reference point: softmax is shift-invariant. */
  lemma QuotientIsAttention(exp: real -> real, s: seq<Ext>, V: seq<Row>, D: nat, c: real, d: nat)
    requires IsExp(exp) && ValuesOk(s, V, D) && d < D && MaxOf(s).Fin?
    ensures Mass(exp, s, c) > 0.0 && Mass(exp, s, 0.0) > 0.0
    ensures Moment(exp, s, V, c, d) / Mass(exp, s, c) == Attention(exp, s, V, D, d)
  {
    MassSign(exp, s, c);
    MassSign(exp, s, 0.0);
    MassShift(exp, s, 0.0, c);
    MomentShift(exp, s, V, 0.0, c, d);
    ExpAdd(exp, 0.0 - c, 0.0);
    Cancel(Moment(exp, s, V, 0.0, d), Mass(exp, s, 0.0), exp(0.0 - c));
  }

  lemma Cancel(a: real, b: real, k: real)
    requires b > 0.0 && k > 0.0
    ensures b * k > 0.0 && (a * k) / (b * k) == a / b
  {
    var q := a / b;
    assert a == q * b;
    assert a * k == q * (b * k);
    QuotientIs(a * k, b * k, q);
  }

  lemma QuotientIs(x: real, y: real, q: real)
    requires y > 0.0 && x == q * y
    ensures x / y == q
  {
  }

  // ---- Safe softmax --------------------------------------------------------------------------

  /** `(score / score_sum) @ v` with scores relative to the row maximum. */
  function SafeAttention(exp: real -> real, s: seq<Ext>, V: seq<Row>, m: real, total: real, d: nat): real
    requires total > 0.0 && |V| == |s| && forall j | 0 <= j < |V| :: d < |V[j]|
  {
    if s == [] then 0.0
    else SafeAttention(exp, s[..|s| - 1], V[..|s| - 1], m, total, d) +
         ExpFrom(exp, s[|s| - 1], m) / total * V[|s| - 1][d]
  }

  lemma {:induction false} SafeIsQuotient(exp: real -> real, s: seq<Ext>, V: seq<Row>, m: real, total: real, d: nat)
    requires total > 0.0 && |V| == |s| && forall j | 0 <= j < |V| :: d < |V[j]|
    ensures SafeAttention(exp, s, V, m, total, d) == Moment(exp, s, V, m, d) / total
  {
    if s == [] {
      QuotientIs(0.0, total, 0.0);
    } else {
      var n := |s| - 1;
      SafeIsQuotient(exp, s[..n], V[..n], m, total, d);
      DivideSum(Moment(exp, s[..n], V[..n], m, d), ExpFrom(exp, s[n], m), V[n][d], total);
    }
  }

  lemma DivideSum(a: real, e: real, v: real, t: real)
    requires t > 0.0
    ensures a / t + e / t * v == (a + e * v) / t
  {
    var p, q := a / t, e / t;
    assert a == p * t && e == q * t;
    assert (p + q * v) * t == p * t + (q * v) * t;
    assert (q * v) * t == (q * t) * v by { Regroup(q, v, t); }
    QuotientIs(a + e * v, t, p + q * v);
  }

  /** Safe softmax attention is softmax attention. */
  lemma SafeIsAttention(exp: real -> real, s: seq<Ext>, V: seq<Row>, D: nat, d: nat)
    requires IsExp(exp) && ValuesOk(s, V, D) && d < D && MaxOf(s).Fin?
    ensures var m := MaxOf(s).v;
            Mass(exp, s, m) > 0.0 && Mass(exp, s, 0.0) > 0.0
            && SafeAttention(exp, s, V, m, Mass(exp, s, m), d) == Attention(exp, s, V, D, d)
  {
    var m := MaxOf(s).v;
    QuotientIsAttention(exp, s, V, D, m, d);
    SafeIsQuotient(exp, s, V, m, Mass(exp, s, m), d);
  }

  // ---- The running state ---------------------------------------------------------------------

  /** Maximum so far, mass and moments relative to it. */
  datatype State = State(m: Ext, l: real, o: Row)

  predicate MomentsAre(exp: real -> real, s: seq<Ext>, V: seq<Row>, D: nat, c: real, o: Row)
    requires ValuesOk(s, V, D)
  {
    |o| == D && forall d: nat | d < D :: o[d] == Moment(exp, s, V, c, d)
  }

  /** The state summarises scores `s` and values `V`; an empty or masked prefix is the initial state. */
  predicate Carries(exp: real -> real, s: seq<Ext>, V: seq<Row>, D: nat, st: State) {
    && ValuesOk(s, V, D) && st.m == MaxOf(s)
    && if st.m.NegInf? then st.l == 0.0 && st.o == Zeros(D)
       else st.l == Mass(exp, s, st.m.v) && MomentsAre(exp, s, V, D, st.m.v, st.o)
  }

  function Start(D: nat): State {
    State(NegInf, 0.0, Zeros(D))
  }

  function Moments(exp: real -> real, s: seq<Ext>, V: seq<Row>, D: nat, c: real, n: nat): (r: Row)
    requires ValuesOk(s, V, D) && n <= D
    ensures |r| == n && forall d: nat | d < n :: r[d] == Moment(exp, s, V, c, d)
  {
    if n == 0 then [] else Moments(exp, s, V, D, c, n - 1) + [Moment(exp, s, V, c, n - 1)]
  }

  /** The tile's own maximum, sum of exponentials and their product with the values; a tile with no
      finite score would compare infinity with infinity. */
  function TileState(exp: real -> real, s: seq<Ext>, V: seq<Row>, D: nat): (t: State)
    requires ValuesOk(s, V, D) && MaxOf(s).Fin?
    ensures Carries(exp, s, V, D, t) && t.m.Fin?
  {
    var c := MaxOf(s).v;
    State(Fin(c), Mass(exp, s, c), Moments(exp, s, V, D, c, D))
  }

  function Mix(a: Row, x: real, b: Row, y: real): (r: Row)
    requires |a| == |b|
    ensures |r| == |a| && forall d: nat | d < |a| :: r[d] == a[d] * x + b[d] * y
  {
    if a == [] then []
    else Mix(a[..|a| - 1], x, b[..|b| - 1], y) + [a[|a| - 1] * x + b[|b| - 1] * y]
  }

  /** Folding a tile into the running state: both rescaled to the new maximum. */
  function Fold(exp: real -> real, st: State, tile: State): State
    requires tile.m.Fin? && |st.o| == |tile.o|
  {
    var m := ExtMax(st.m, tile.m);
    var alpha, beta := ExpFrom(exp, st.m, m.v), ExpFrom(exp, tile.m, m.v);
    State(m, st.l * alpha + tile.l * beta, Mix(st.o, alpha, tile.o, beta))
  }

  lemma Rescaled(exp: real -> real, s: seq<Ext>, V: seq<Row>, D: nat, st: State, c: real)
    requires IsExp(exp) && Carries(exp, s, V, D, st)
    ensures |st.o| == D && st.l * ExpFrom(exp, st.m, c) == Mass(exp, s, c)
  {
    MassSign(exp, s, c);
    if st.m.Fin? {
      MassShift(exp, s, st.m.v, c);
    }
  }

  /** The fold of a tile carries the longer prefix. */
  lemma FoldCarries(exp: real -> real, s: seq<Ext>, V: seq<Row>, t: seq<Ext>, W: seq<Row>, D: nat, st: State,
      tile: State)
    requires IsExp(exp) && Carries(exp, s, V, D, st) && Carries(exp, t, W, D, tile) && tile.m.Fin?
    ensures |st.o| == |tile.o| && Carries(exp, s + t, V + W, D, Fold(exp, st, tile))
  {
    hide Mass, MomentsAre, MaxOf, Fold;
    MaxConcat(s, t);
    FoldMass(exp, s, V, t, W, D, st, tile);
    FoldMoments(exp, s, V, t, W, D, st, tile);
  }

  lemma FoldMass(exp: real -> real, s: seq<Ext>, V: seq<Row>, t: seq<Ext>, W: seq<Row>, D: nat, st: State, tile: State)
    requires IsExp(exp) && Carries(exp, s, V, D, st) && Carries(exp, t, W, D, tile) && tile.m.Fin?
    ensures |st.o| == |tile.o| == D && Fold(exp, st, tile).m == ExtMax(st.m, tile.m) && |Fold(exp, st, tile).o| == D
    ensures Fold(exp, st, tile).l == Mass(exp, s + t, ExtMax(st.m, tile.m).v)
  {
    hide Mass, Moment, MaxOf, ExpFrom, Carries;
    var c := ExtMax(st.m, tile.m).v;
    Rescaled(exp, s, V, D, st, c);
    Rescaled(exp, t, W, D, tile, c);
    MassConcat(exp, s, t, c);
  }

  lemma FoldMoments(exp: real -> real, s: seq<Ext>, V: seq<Row>, t: seq<Ext>, W: seq<Row>, D: nat, st: State,
      tile: State)
    requires IsExp(exp) && Carries(exp, s, V, D, st) && Carries(exp, t, W, D, tile) && tile.m.Fin?
    ensures |st.o| == |tile.o| == D && ValuesOk(s + t, V + W, D)
    ensures MomentsAre(exp, s + t, V + W, D, ExtMax(st.m, tile.m).v, Fold(exp, st, tile).o)
  {
    hide Mass, Moment, MaxOf, ExpFrom, Carries, Fold;
    CarriedShape(exp, s, V, D, st);
    CarriedShape(exp, t, W, D, tile);
    FoldMass(exp, s, V, t, W, D, st, tile);
    forall d: nat | d < D
      ensures Fold(exp, st, tile).o[d] == Moment(exp, s + t, V + W, ExtMax(st.m, tile.m).v, d)
    {
      FoldMoment(exp, s, V, t, W, D, st, tile, d);
    }
  }

  lemma CarriedShape(exp: real -> real, s: seq<Ext>, V: seq<Row>, D: nat, st: State)
    requires Carries(exp, s, V, D, st)
    ensures |st.o| == D && ValuesOk(s, V, D)
  {
  }

  lemma FoldMoment(
    exp: real -> real, s: seq<Ext>, V: seq<Row>, t: seq<Ext>, W: seq<Row>, D: nat, st: State, tile: State, d: nat)
    requires IsExp(exp) && Carries(exp, s, V, D, st) && Carries(exp, t, W, D, tile) && tile.m.Fin? && d < D
    ensures |st.o| == |tile.o| == D && ValuesOk(s + t, V + W, D)
    ensures Fold(exp, st, tile).o[d] == Moment(exp, s + t, V + W, ExtMax(st.m, tile.m).v, d)
  {
    hide Mass, Moment, MaxOf, ExpFrom, Carries, Fold;
    CarriedShape(exp, s, V, D, st);
    CarriedShape(exp, t, W, D, tile);
    var c := ExtMax(st.m, tile.m).v;
    RescaledMoment(exp, s, V, D, st, c, d);
    RescaledMoment(exp, t, W, D, tile, c, d);
    MomentConcat(exp, s, t, V, W, c, d);
    FoldAt(exp, st, tile, d);
  }

  lemma RescaledMoment(exp: real -> real, s: seq<Ext>, V: seq<Row>, D: nat, st: State, c: real, d: nat)
    requires IsExp(exp) && Carries(exp, s, V, D, st) && d < D
    ensures |st.o| == D && st.o[d] * ExpFrom(exp, st.m, c) == Moment(exp, s, V, c, d)
  {
    if st.m.Fin? {
      MomentShift(exp, s, V, st.m.v, c, d);
    } else {
      MomentMasked(exp, s, V, c, d);
    }
  }

  lemma FoldAt(exp: real -> real, st: State, tile: State, d: nat)
    requires tile.m.Fin? && |st.o| == |tile.o| && d < |st.o|
    ensures var c := ExtMax(st.m, tile.m).v;
            |Fold(exp, st, tile).o| == |st.o|
            && Fold(exp, st, tile).o[d] == st.o[d] * ExpFrom(exp, st.m, c) + tile.o[d] * ExpFrom(exp, tile.m, c)
  {
    hide ExpFrom;
  }

  /** Masked scores change nothing. */
  lemma MaskedCarries(exp: real -> real, s: seq<Ext>, V: seq<Row>, t: seq<Ext>, W: seq<Row>, D: nat, st: State)
    requires IsExp(exp) && Carries(exp, s, V, D, st) && ValuesOk(t, W, D) && MaxOf(t).NegInf?
    ensures Carries(exp, s + t, V + W, D, st)
  {
    MaxConcat(s, t);
    if st.m.Fin? {
      MassConcat(exp, s, t, st.m.v);
      MassSign(exp, t, st.m.v);
      forall d: nat | d < D
        ensures Moment(exp, s + t, V + W, st.m.v, d) == st.o[d]
      {
        MomentConcat(exp, s, t, V, W, st.m.v, d);
        MomentMasked(exp, t, W, st.m.v, d);
      }
    }
  }

  /** Normalising the final state gives attention. */
  lemma CarriedIsAttention(exp: real -> real, s: seq<Ext>, V: seq<Row>, D: nat, st: State, d: nat)
    requires IsExp(exp) && Carries(exp, s, V, D, st) && st.m.Fin? && d < D
    ensures |st.o| == D && st.l > 0.0 && Mass(exp, s, 0.0) > 0.0 && st.o[d] / st.l == Attention(exp, s, V, D, d)
  {
    QuotientIsAttention(exp, s, V, D, st.m.v, d);
  }
}
