/** Rows of reals: dot products, matrix times vector, sums. */
module RealVectors {

  type Row = seq<real>

  function Dot(a: Row, b: Row): real
    requires |a| == |b|
  {
    if a == [] then 0.0 else Dot(a[..|a| - 1], b[..|a| - 1]) + a[|a| - 1] * b[|a| - 1]
  }

  lemma {:induction false} DotConcat(a: Row, b: Row, c: Row, d: Row)
    requires |a| == |b| && |c| == |d|
    ensures Dot(a + c, b + d) == Dot(a, b) + Dot(c, d)
  {
    if c == [] {
      assert a + c == a && b + d == b;
    } else {
      var n := |c| - 1;
      DotConcat(a, b, c[..n], d[..n]);
      assert (a + c)[..|a + c| - 1] == a + c[..n] && (b + d)[..|a + c| - 1] == b + d[..n];
    }
  }

  lemma DotStep(a: Row, b: Row, n: nat)
    requires |a| == |b| && n < |a|
    ensures Dot(a[..n + 1], b[..n + 1]) == Dot(a[..n], b[..n]) + a[n] * b[n]
  {
    assert a[..n + 1][..n] == a[..n] && b[..n + 1][..n] == b[..n];
  }

  function MatVec(w: seq<Row>, x: Row): (r: Row)
    requires forall n | 0 <= n < |w| :: |w[n]| == |x|
    ensures |r| == |w| && forall n | 0 <= n < |w| :: r[n] == Dot(x, w[n])
  {
    if w == [] then [] else MatVec(w[..|w| - 1], x) + [Dot(x, w[|w| - 1])]
  }

  function Zeros(n: nat): (r: Row)
    ensures |r| == n && forall k | 0 <= k < n :: r[k] == 0.0
  {
    if n == 0 then [] else Zeros(n - 1) + [0.0]
  }

  function Scale(v: Row, s: real): (r: Row)
    ensures |r| == |v| && forall k | 0 <= k < |v| :: r[k] == v[k] * s
  {
    if v == [] then [] else Scale(v[..|v| - 1], s) + [v[|v| - 1] * s]
  }
}
