/** Tree speculative sampling is lossless at the default thresholds: counted over all coins and
    final draws, the token emitted after a node has exactly the target distribution. */
module Losslessness {
  import opened Wrappers
  import opened Counting
  import opened SpeculativeSampling

  // ---------- One node ----------

  /** Both thresholds are one whole. */
  predicate DefaultRule(rule: Rule) {
    rule.scale > 0 && rule.single == rule.scale && rule.acc == rule.scale
  }

  lemma {:induction false} ProbAccMonotone(tokens: seq<nat>, probs: seq<nat>, i: nat, j: nat)
    requires i <= j <= |tokens| && forall k | 0 <= k < |tokens| :: tokens[k] < |probs|
    ensures ProbAcc(tokens, probs, i) <= ProbAcc(tokens, probs, j)
    decreases j
  {
    if i < j {
      ProbAccMonotone(tokens, probs, i, j - 1);
    }
  }

  lemma HitIsWindow(rule: Rule, node: Node, j: nat)
    requires DefaultRule(rule) && NodeOk(node) && node.coin <= rule.scale && j < |node.tokens|
    ensures Hit(rule, node.coin, node.probs[node.tokens[j]], ProbAcc(node.tokens, node.probs, j + 1))
        <==> node.coin <= ProbAcc(node.tokens, node.probs, j + 1)
  {
    CancelScale(node.coin, ProbAcc(node.tokens, node.probs, j + 1), rule.scale);
  }

  lemma CancelScale(a: nat, b: nat, k: nat)
    requires k > 0
    ensures a * k <= b * k <==> a <= b
  {
    if a > b {
      assert a * k == b * k + (a - b) * k;
      assert (a - b) * k >= k by { AtLeast(a - b, k); }
    } else {
      assert b * k == a * k + (b - a) * k;
    }
  }

  lemma AtLeast(d: nat, k: nat)
    requires d >= 1
    ensures d * k >= k
  {
    assert d * k == (d - 1) * k + k;
  }

  /** Child `k` is accepted by exactly the coins in its own stretch of the cumulative sums, and
      the coins beyond the last child reject all. */
  lemma {:induction false} ChooseWindow(rule: Rule, node: Node, j: nat)
    requires DefaultRule(rule) && NodeOk(node) && node.coin <= rule.scale && j <= |node.tokens|
    requires ProbAcc(node.tokens, node.probs, j) < node.coin
    ensures forall k: nat | j <= k < |node.tokens| ::
      Choose(rule, node, j) == Some(k) <==>
      ProbAcc(node.tokens, node.probs, k) < node.coin <= ProbAcc(node.tokens, node.probs, k + 1)
    ensures Choose(rule, node, j) == None <==> ProbAcc(node.tokens, node.probs, |node.tokens|) < node.coin
    decreases |node.tokens| - j
  {
    if j < |node.tokens| {
      HitIsWindow(rule, node, j);
      if node.coin <= ProbAcc(node.tokens, node.probs, j + 1) {
        forall k: nat | j < k <= |node.tokens|
          ensures node.coin <= ProbAcc(node.tokens, node.probs, k)
        {
          ProbAccMonotone(node.tokens, node.probs, j + 1, k);
        }
      } else {
        ChooseWindow(rule, node, j + 1);
      }
    }
  }

  // ---------- The residual ----------

  predicate DistinctTokens(tokens: seq<nat>) {
    forall i, j | 0 <= i < j < |tokens| :: tokens[i] != tokens[j]
  }

  function Zeros(n: nat): (r: seq<nat>)
    ensures |r| == n && forall t | 0 <= t < n :: r[t] == 0
  {
    seq(n, _ => 0)
  }

  /** What is left of the target once the first `j` children are rejected. */
  function Residual(probs: seq<nat>, tokens: seq<nat>, j: nat): (r: seq<nat>)
    requires j <= |tokens| && forall i | 0 <= i < |tokens| :: tokens[i] < |probs|
    ensures |r| == |probs|
  {
    Clamped(probs, Rejected(probs, Zeros(|probs|), tokens, j))
  }

  lemma {:induction false} RejectedAt(probs: seq<nat>, tokens: seq<nat>, j: nat, t: nat)
    requires j <= |tokens| && (forall i | 0 <= i < |tokens| :: tokens[i] < |probs|) && t < |probs|
    ensures Rejected(probs, Zeros(|probs|), tokens, j)[t] == if t in tokens[..j] then probs[t] else 0
  {
    if j > 0 {
      RejectedAt(probs, tokens, j - 1, t);
      assert tokens[..j] == tokens[..j - 1] + [tokens[j - 1]];
    }
  }

  lemma ResidualAt(probs: seq<nat>, tokens: seq<nat>, j: nat, t: nat)
    requires j <= |tokens| && (forall i | 0 <= i < |tokens| :: tokens[i] < |probs|) && t < |probs|
    ensures Residual(probs, tokens, j)[t] == if t in tokens[..j] then 0 else probs[t]
  {
    RejectedAt(probs, tokens, j, t);
  }

  lemma {:induction false} CdfUpdate(w: seq<nat>, t: nat, k: nat)
    requires t < |w| && k <= |w|
    ensures Cdf(w[t := 0], k) == if t < k then Cdf(w, k) - w[t] else Cdf(w, k)
    ensures t < k ==> Cdf(w, k) >= w[t]
  {
    if k > 0 {
      CdfUpdate(w, t, k - 1);
    }
  }

  /** Accepted and residual mass together make up the target. */
  lemma {:induction false} ResidualMass(probs: seq<nat>, tokens: seq<nat>, j: nat)
    requires j <= |tokens| && (forall i | 0 <= i < |tokens| :: tokens[i] < |probs|) && DistinctTokens(tokens)
    ensures ProbAcc(tokens, probs, j) + Total(Residual(probs, tokens, j)) == Total(probs)
  {
    if j == 0 {
      assert Residual(probs, tokens, 0) == probs;
    } else {
      ResidualMass(probs, tokens, j - 1);
      var t, before := tokens[j - 1], Residual(probs, tokens, j - 1);
      assert Residual(probs, tokens, j) == before[t := 0] by {
        forall i: nat | i < |probs|
          ensures Residual(probs, tokens, j)[i] == before[t := 0][i]
        {
          ResidualAt(probs, tokens, j, i);
          ResidualAt(probs, tokens, j - 1, i);
          assert tokens[..j] == tokens[..j - 1] + [t];
        }
      }
      ResidualAt(probs, tokens, j - 1, t);
      assert t !in tokens[..j - 1];
      CdfUpdate(before, t, |before|);
    }
  }

  // ---------- The final draw ----------

  lemma {:induction false} CdfMonotone(w: seq<nat>, i: nat, j: nat)
    requires i <= j <= |w|
    ensures Cdf(w, i) <= Cdf(w, j)
    decreases j
  {
    if i < j {
      CdfMonotone(w, i, j - 1);
    }
  }

  /** With a resolution that is a multiple of the residual mass, the search compares the draw
      with the scaled cumulative sums. */
  lemma SearchTest(w: seq<nat>, k: nat, u: nat, m: nat)
    requires k < |w| && Total(w) > 0
    ensures Cdf(w, k + 1) * (Total(w) * m) > u * Total(w) <==> Cdf(w, k + 1) * m > u
  {
    var c, total := Cdf(w, k + 1), Total(w);
    assert c * (total * m) == (c * m) * total by { Regroup(c, total, m); }
    CancelScale(c * m, u, total);
  }

  lemma Regroup(c: nat, total: nat, m: nat)
    ensures c * (total * m) == (c * m) * total
  {
    assert c * (total * m) == c * (m * total) == (c * m) * total;
  }

  /** A draw in the stretch of `t` gives `t`. */
  lemma {:induction false} SearchFinds(w: seq<nat>, k: nat, t: nat, u: nat, m: nat)
    requires k <= t < |w| && Total(w) > 0 && Cdf(w, t) * m <= u < Cdf(w, t + 1) * m
    ensures Search(w, k, u, Total(w) * m) == t
    decreases t - k
  {
    SearchTest(w, k, u, m);
    if k < t {
      CdfMonotone(w, k + 1, t);
      ScaleMonotone(Cdf(w, k + 1), Cdf(w, t), m);
      SearchFinds(w, k + 1, t, u, m);
    }
  }

  lemma ScaleMonotone(a: nat, b: nat, m: nat)
    requires a <= b
    ensures a * m <= b * m
  {
    assert b * m == a * m + (b - a) * m;
  }

  /** And only those draws do. */
  lemma {:induction false} SearchStretch(w: seq<nat>, k: nat, u: nat, m: nat)
    requires k < |w| && Total(w) > 0 && Cdf(w, k) * m <= u < Total(w) * m
    ensures var t := Search(w, k, u, Total(w) * m); Cdf(w, t) * m <= u < Cdf(w, t + 1) * m
    decreases |w| - k
  {
    SearchTest(w, k, u, m);
    if !(k + 1 == |w| || Cdf(w, k + 1) * (Total(w) * m) > u * Total(w)) {
      SearchStretch(w, k + 1, u, m);
    }
  }

  /** Token `t` is drawn by exactly its weight of draws, scaled. */
  lemma DrawWindow(w: seq<nat>, t: nat, u: nat, m: nat)
    requires t < |w| && Total(w) > 0 && u < Total(w) * m
    ensures SampleFromProbs(w, u, Total(w) * m) == t <==> Cdf(w, t) * m <= u < Cdf(w, t + 1) * m
  {
    if Cdf(w, t) * m <= u < Cdf(w, t + 1) * m {
      SearchFinds(w, 0, t, u, m);
    }
    SearchStretch(w, 0, u, m);
  }

  // ---------- The whole walk ----------

  /** What losslessness needs of the input: default thresholds, target rows that sum to one
      whole, and different tokens on siblings. */
  ghost predicate Fair(input: Input, vocab: nat) {
    && InputOk(input, vocab) && DefaultRule(input.rule)
    && (forall v | 0 <= v < |input.target| :: Total(input.target[v]) == input.rule.scale)
    && (forall v | 0 <= v < |input.target| :: DistinctTokens(KidTokens(input, v)))
  }

  /** One sample: a coin from 1..scale for every node and a final draw below `draws`. */
  ghost function AllDraws(n: nat, scale: nat, draws: nat): (w: seq<set<nat>>)
    ensures |w| == n + 1 && (forall i | 0 <= i < n :: w[i] == Interval(1, scale + 1)) && w[n] == Interval(0, draws)
  {
    seq(n, _ => Interval(1, scale + 1)) + [Interval(0, draws)]
  }

  ghost function Samples(input: Input, draws: nat): set<Sample<nat>> {
    Box(AllDraws(|input.tree.kids|, input.rule.scale, draws))
  }

  ghost predicate Visits(input: Input, vocab: nat, s: Sample<nat>, v: nat)
    requires InputOk(input, vocab) && |s| > |input.tree.kids|
  {
    v in Path(input, vocab, s, 0)
  }

  /** The residual mass vector of a node whose children are all rejected. */
  ghost function ResidualOf(input: Input, vocab: nat, v: nat): (r: seq<nat>)
    requires InputOk(input, vocab) && v < |input.tree.kids|
    ensures |r| == vocab
  {
    Residual(input.target[v], KidTokens(input, v), |input.tree.kids[v]|)
  }

  /** The token the walk emits right after node `v`: that of the accepted child, or a draw from
      the residual. */
  ghost function Emitted(input: Input, vocab: nat, draws: nat, s: Sample<nat>, v: nat): nat
    requires InputOk(input, vocab) && |s| > |input.tree.kids| && v < |input.tree.kids|
  {
    match Accepted(input, vocab, s, v)
    case Some(c) => input.candidates[c]
    case None => SampleFromProbs(ResidualOf(input, vocab, v), s[|input.tree.kids|], draws)
  }

  ghost function Reaching(input: Input, vocab: nat, draws: nat, v: nat): set<Sample<nat>>
    requires InputOk(input, vocab) && v < |input.tree.kids|
  {
    set s | s in Samples(input, draws) && |s| > |input.tree.kids| && Visits(input, vocab, s, v)
  }

  ghost function Emitting(input: Input, vocab: nat, draws: nat, v: nat, t: nat): set<Sample<nat>>
    requires InputOk(input, vocab) && v < |input.tree.kids|
  {
    set s | s in Reaching(input, vocab, draws, v) && |s| > |input.tree.kids| && Emitted(input, vocab, draws, s, v) == t
  }

  // ---------- Where a walk goes ----------

  /** A walk visits a node exactly if it visits the parent and accepts the node there. */
  lemma {:induction false} VisitStep(input: Input, vocab: nat, s: Sample<nat>, x: nat, v: nat)
    requires InputOk(input, vocab) && |s| > |input.tree.kids| && x <= v < |input.tree.kids|
    ensures v in Path(input, vocab, s, x) <==>
      v == x || (v > 0 && x <= input.tree.parent[v] && input.tree.parent[v] in Path(input, vocab, s, x)
                 && Accepted(input, vocab, s, input.tree.parent[v]) == Some(v))
    decreases |input.tree.kids| - x
  {
    var path := Path(input, vocab, s, x);
    match Accepted(input, vocab, s, x)
    case None =>
    case Some(c) =>
      var rest := Path(input, vocab, s, c);
      assert path == [x] + rest;
      assert rest[0] == c;
      if v >= c {
        VisitStep(input, vocab, s, c, v);
      } else {
        assert v in path <==> v == x;
        if v > 0 && input.tree.parent[v] in path && input.tree.parent[v] != x {
          assert input.tree.parent[v] in rest;
        }
      }
  }

  /** Cumulative probability of the first `j` children of `p`. */
  ghost function KidAcc(input: Input, vocab: nat, p: nat, j: nat): nat
    requires InputOk(input, vocab) && p < |input.tree.kids| && j <= |input.tree.kids[p]|
  {
    ProbAcc(KidTokens(input, p), input.target[p], j)
  }

  lemma KidAccFits(input: Input, vocab: nat, p: nat, j: nat)
    requires Fair(input, vocab) && p < |input.tree.kids| && j <= |input.tree.kids[p]|
    ensures KidAcc(input, vocab, p, j) <= KidAcc(input, vocab, p, |input.tree.kids[p]|) <= input.rule.scale
    ensures Total(ResidualOf(input, vocab, p)) == input.rule.scale - KidAcc(input, vocab, p, |input.tree.kids[p]|)
  {
    ProbAccMonotone(KidTokens(input, p), input.target[p], j, |input.tree.kids[p]|);
    ResidualMass(input.target[p], KidTokens(input, p), |input.tree.kids[p]|);
  }

  /** The coins at `p` that accept its `j`-th child. */
  ghost function KidWindow(input: Input, vocab: nat, p: nat, j: nat): set<nat>
    requires InputOk(input, vocab) && p < |input.tree.kids| && j < |input.tree.kids[p]|
  {
    Interval(KidAcc(input, vocab, p, j) + 1, KidAcc(input, vocab, p, j + 1) + 1)
  }

  lemma AcceptedWindow(input: Input, vocab: nat, s: Sample<nat>, p: nat, j: nat)
    requires Fair(input, vocab) && |s| > |input.tree.kids| && p < |input.tree.kids| && j < |input.tree.kids[p]|
    requires 1 <= s[p] <= input.rule.scale
    ensures Accepted(input, vocab, s, p) == Some(input.tree.kids[p][j]) <==> s[p] in KidWindow(input, vocab, p, j)
  {
    ChooseWindow(input.rule, NodeOf(input, vocab, s, p), 0);
  }

  lemma RejectedWindow(input: Input, vocab: nat, s: Sample<nat>, p: nat)
    requires Fair(input, vocab) && |s| > |input.tree.kids| && p < |input.tree.kids|
    requires 1 <= s[p] <= input.rule.scale
    ensures Accepted(input, vocab, s, p) == None <==> s[p] > KidAcc(input, vocab, p, |input.tree.kids[p]|)
  {
    ChooseWindow(input.rule, NodeOf(input, vocab, s, p), 0);
  }

  /** The windows of the samples that reach `v`: every ancestor's coin accepts the next node on
      the way, all other coordinates are free. */
  ghost function ReachWindows(input: Input, vocab: nat, draws: nat, v: nat): (w: seq<set<nat>>)
    requires InputOk(input, vocab) && v < |input.tree.kids|
    ensures |w| == |input.tree.kids| + 1
    ensures forall i | v <= i < |w| :: w[i] == AllDraws(|input.tree.kids|, input.rule.scale, draws)[i]
    decreases v
  {
    if v == 0 then AllDraws(|input.tree.kids|, input.rule.scale, draws)
    else
      var p := input.tree.parent[v];
      ReachWindows(input, vocab, draws, p)[p := KidWindow(input, vocab, p, input.tree.place[v])]
  }

  /** A narrowed box: one coordinate is checked, the others as before. */
  lemma NarrowBox(windows: seq<set<nat>>, i: nat, w: set<nat>, s: Sample<nat>)
    requires i < |windows| && w <= windows[i]
    ensures s in Box(windows) ==> |s| == |windows| && forall k | 0 <= k < |s| :: s[k] in windows[k]
    ensures s in Box(windows[i := w]) <==> s in Box(windows) && s[i] in w
  {
    BoxMember(windows, s);
    BoxMember(windows[i := w], s);
    if s in Box(windows) && s[i] in w {
      assert forall k | 0 <= k < |s| :: s[k] in windows[i := w][k];
    }
    if s in Box(windows[i := w]) {
      assert forall k | 0 <= k < |s| :: s[k] in windows[i := w][k];
    }
  }

  lemma KidWindowFits(input: Input, vocab: nat, p: nat, j: nat)
    requires Fair(input, vocab) && p < |input.tree.kids| && j < |input.tree.kids[p]|
    ensures KidWindow(input, vocab, p, j) <= Interval(1, input.rule.scale + 1)
    ensures |KidWindow(input, vocab, p, j)| == input.target[p][KidTokens(input, p)[j]]
  {
    KidAccFits(input, vocab, p, j + 1);
  }

  /** Reaching a node is a condition on the coins of its ancestors, one window each. */
  lemma {:induction false} ReachBox(input: Input, vocab: nat, draws: nat, v: nat, s: Sample<nat>)
    requires Fair(input, vocab) && v < |input.tree.kids|
    ensures s in Box(ReachWindows(input, vocab, draws, v)) <==> s in Reaching(input, vocab, draws, v)
    decreases v
  {
    hide InputOk, Box;
    var n := |input.tree.kids|;
    var all := AllDraws(n, input.rule.scale, draws);
    BoxMember(all, s);
    if v == 0 {
      if |s| > n {
        VisitStep(input, vocab, s, 0, 0);
      }
    } else {
      TreeParent(input, vocab, v);
      var p: nat := input.tree.parent[v];
      var j := input.tree.place[v];
      ReachBox(input, vocab, draws, p, s);
      KidWindowFits(input, vocab, p, j);
      NarrowBox(ReachWindows(input, vocab, draws, p), p, KidWindow(input, vocab, p, j), s);
      if s in Samples(input, draws) {
        assert s[p] in all[p];
        VisitStep(input, vocab, s, 0, v);
        AcceptedWindow(input, vocab, s, p, j);
      }
    }
  }

  lemma TreeParent(input: Input, vocab: nat, v: nat)
    requires InputOk(input, vocab) && 0 < v < |input.tree.kids|
    ensures |input.tree.parent| == |input.tree.place| == |input.tree.kids|
    ensures 0 <= input.tree.parent[v] < v && input.tree.place[v] < |input.tree.kids[input.tree.parent[v]]|
    ensures input.tree.kids[input.tree.parent[v]][input.tree.place[v]] == v
  {
  }

  lemma ReachCount(input: Input, vocab: nat, draws: nat, v: nat)
    requires Fair(input, vocab) && v < |input.tree.kids|
    ensures |Reaching(input, vocab, draws, v)| == Product(ReachWindows(input, vocab, draws, v))
  {
    forall s
      ensures s in Box(ReachWindows(input, vocab, draws, v)) <==> s in Reaching(input, vocab, draws, v)
    {
      ReachBox(input, vocab, draws, v, s);
    }
    assert Box(ReachWindows(input, vocab, draws, v)) == Reaching(input, vocab, draws, v);
    BoxCard(ReachWindows(input, vocab, draws, v));
  }

  // ---------- What a node emits ----------

  /** A child's token is emitted exactly by the coins that accept the child: it has no residual
      mass, so the final draw never gives it. */
  lemma EmitsKid(input: Input, vocab: nat, draws: nat, m: nat, s: Sample<nat>, v: nat, j: nat)
    requires Fair(input, vocab) && v < |input.tree.kids| && j < |input.tree.kids[v]| && s in Samples(input, draws)
    requires |s| > |input.tree.kids| && 1 <= s[v] <= input.rule.scale && s[|input.tree.kids|] < draws
    requires Total(ResidualOf(input, vocab, v)) > 0 ==> draws == Total(ResidualOf(input, vocab, v)) * m
    ensures Emitted(input, vocab, draws, s, v) == KidTokens(input, v)[j] <==> s[v] in KidWindow(input, vocab, v, j)
  {
    hide Samples;
    var r := Accepted(input, vocab, s, v);
    AcceptedWindow(input, vocab, s, v, j);
    if r.Some? {
      var k := input.tree.place[r.value];
      assert input.candidates[r.value] == KidTokens(input, v)[k];
      assert KidTokens(input, v)[k] == KidTokens(input, v)[j] ==> k == j;
    } else {
      var w, t := ResidualOf(input, vocab, v), KidTokens(input, v)[j];
      RejectedWindow(input, vocab, s, v);
      KidAccFits(input, vocab, v, 0);
      ResidualAt(input.target[v], KidTokens(input, v), |input.tree.kids[v]|, t);
      assert t in KidTokens(input, v)[..|input.tree.kids[v]|];
      assert Cdf(w, t + 1) == Cdf(w, t);
      DrawWindow(w, t, s[|input.tree.kids|], m);
    }
  }

  /** Any other token is emitted exactly when all children are rejected and the final draw falls
      into the token's stretch of the residual. */
  lemma EmitsOther(input: Input, vocab: nat, draws: nat, m: nat, s: Sample<nat>, v: nat, t: nat)
    requires Fair(input, vocab) && v < |input.tree.kids| && t < vocab && t !in KidTokens(input, v)
    requires |s| > |input.tree.kids| && 1 <= s[v] <= input.rule.scale && s[|input.tree.kids|] < draws
    requires Total(ResidualOf(input, vocab, v)) > 0 && draws == Total(ResidualOf(input, vocab, v)) * m
    ensures Emitted(input, vocab, draws, s, v) == t <==>
      && s[v] > KidAcc(input, vocab, v, |input.tree.kids[v]|)
      && Cdf(ResidualOf(input, vocab, v), t) * m <= s[|input.tree.kids|] < Cdf(ResidualOf(input, vocab, v), t + 1) * m
  {
    var r := Accepted(input, vocab, s, v);
    RejectedWindow(input, vocab, s, v);
    if r.Some? {
      var k := input.tree.place[r.value];
      assert input.candidates[r.value] == KidTokens(input, v)[k];
    } else {
      DrawWindow(ResidualOf(input, vocab, v), t, s[|input.tree.kids|], m);
    }
  }

  /** Reaching samples lie in the ranges of the draws. */
  lemma ReachRanges(input: Input, vocab: nat, draws: nat, v: nat, s: Sample<nat>)
    requires Fair(input, vocab) && v < |input.tree.kids| && s in Reaching(input, vocab, draws, v)
    ensures |s| == |input.tree.kids| + 1 && 1 <= s[v] <= input.rule.scale && s[|input.tree.kids|] < draws
    ensures s in Samples(input, draws)
  {
    var all := AllDraws(|input.tree.kids|, input.rule.scale, draws);
    BoxMember(all, s);
    assert s[v] in all[v] && s[|input.tree.kids|] in all[|input.tree.kids|];
  }

  /** The token of a child, with its weight: a window of the node's coins. */
  lemma EmitKidBox(input: Input, vocab: nat, draws: nat, m: nat, v: nat, j: nat, s: Sample<nat>)
    requires Fair(input, vocab) && v < |input.tree.kids| && j < |input.tree.kids[v]|
    requires Total(ResidualOf(input, vocab, v)) > 0 ==> draws == Total(ResidualOf(input, vocab, v)) * m
    ensures s in Box(ReachWindows(input, vocab, draws, v)[v := KidWindow(input, vocab, v, j)])
        <==> s in Emitting(input, vocab, draws, v, KidTokens(input, v)[j])
  {
    hide Box, Reaching, KidWindow;
    KidWindowFits(input, vocab, v, j);
    ReachBox(input, vocab, draws, v, s);
    NarrowBox(ReachWindows(input, vocab, draws, v), v, KidWindow(input, vocab, v, j), s);
    if s in Reaching(input, vocab, draws, v) {
      ReachRanges(input, vocab, draws, v, s);
      EmitsKid(input, vocab, draws, m, s, v, j);
    }
  }

  lemma EmitKidCount(input: Input, vocab: nat, draws: nat, m: nat, v: nat, j: nat)
    requires Fair(input, vocab) && v < |input.tree.kids| && j < |input.tree.kids[v]|
    requires Total(ResidualOf(input, vocab, v)) > 0 ==> draws == Total(ResidualOf(input, vocab, v)) * m
    ensures var t := KidTokens(input, v)[j];
      |Emitting(input, vocab, draws, v, t)| * input.rule.scale
          == |Reaching(input, vocab, draws, v)| * input.target[v][t]
  {
    hide Box, Emitting, Reaching, KidWindow, ReachWindows, Product, Fair;
    FairInput(input, vocab);
    var t := KidTokens(input, v)[j];
    var w, win := ReachWindows(input, vocab, draws, v), KidWindow(input, vocab, v, j);
    KidWindowFits(input, vocab, v, j);
    forall s
      ensures s in Box(w[v := win]) <==> s in Emitting(input, vocab, draws, v, t)
    {
      EmitKidBox(input, vocab, draws, m, v, j, s);
    }
    assert Box(w[v := win]) == Emitting(input, vocab, draws, v, t);
    BoxCard(w[v := win]);
    ReachCount(input, vocab, draws, v);
    ProductUpdate(w, v, win);
  }

  lemma FairInput(input: Input, vocab: nat)
    requires Fair(input, vocab)
    ensures InputOk(input, vocab)
  {
  }

  /** The coins at `v` that reject every child. */
  ghost function RejectWindow(input: Input, vocab: nat, v: nat): set<nat>
    requires Fair(input, vocab) && v < |input.tree.kids|
  {
    KidAccFits(input, vocab, v, 0);
    Interval(KidAcc(input, vocab, v, |input.tree.kids[v]|) + 1, input.rule.scale + 1)
  }

  /** The stretch of `t` in the scaled cumulative sums. */
  function Stretch(w: seq<nat>, t: nat, m: nat): (r: set<nat>)
    requires t < |w|
    ensures |r| == w[t] * m
    ensures forall u: nat :: u in r <==> Cdf(w, t) * m <= u < Cdf(w, t + 1) * m
  {
    ScaleMonotone(Cdf(w, t), Cdf(w, t + 1), m);
    ScaleDifference(Cdf(w, t), w[t], m);
    Interval(Times(Cdf(w, t), m), Times(Cdf(w, t + 1), m))
  }

  function Times(a: nat, m: nat): (r: nat)
    ensures r == a * m
  {
    a * m
  }

  /** The final draws that give `t` at `v`. */
  ghost function TokenWindow(input: Input, vocab: nat, v: nat, t: nat, m: nat): set<nat>
    requires InputOk(input, vocab) && v < |input.tree.kids| && t < vocab
  {
    Stretch(ResidualOf(input, vocab, v), t, m)
  }

  lemma RejectSize(input: Input, vocab: nat, v: nat)
    requires Fair(input, vocab) && v < |input.tree.kids|
    ensures |RejectWindow(input, vocab, v)| == Total(ResidualOf(input, vocab, v))
    ensures RejectWindow(input, vocab, v) <= Interval(1, input.rule.scale + 1)
  {
    KidAccFits(input, vocab, v, 0);
  }

  lemma TokenSize(input: Input, vocab: nat, draws: nat, v: nat, t: nat, m: nat)
    requires InputOk(input, vocab) && v < |input.tree.kids| && t < vocab && t !in KidTokens(input, v)
    requires draws == Total(ResidualOf(input, vocab, v)) * m
    ensures |TokenWindow(input, vocab, v, t, m)| == input.target[v][t] * m
    ensures TokenWindow(input, vocab, v, t, m) <= Interval(0, draws)
  {
    hide InputOk, Total;
    var w := ResidualOf(input, vocab, v);
    InputRows(input, vocab, v);
    ResidualAt(input.target[v], KidTokens(input, v), |input.tree.kids[v]|, t);
    StretchSize(w, t, m);
  }

  lemma InputRows(input: Input, vocab: nat, v: nat)
    requires InputOk(input, vocab) && v < |input.tree.kids|
    ensures TreeOk(input.tree) && |input.target| == |input.tree.kids| == |input.candidates|
    ensures |input.target[v]| == vocab
    ensures forall j | 0 <= j < |input.tree.kids[v]| :: KidTokens(input, v)[j] < vocab
  {
  }

  lemma StretchSize(w: seq<nat>, t: nat, m: nat)
    requires t < |w|
    ensures Cdf(w, t) * m <= Cdf(w, t + 1) * m <= Total(w) * m
    ensures Cdf(w, t + 1) * m - Cdf(w, t) * m == w[t] * m
  {
    ScaleDifference(Cdf(w, t), w[t], m);
    CdfMonotone(w, t + 1, |w|);
    ScaleMonotone(Cdf(w, t), Cdf(w, t + 1), m);
    ScaleMonotone(Cdf(w, t + 1), Total(w), m);
  }

  lemma ScaleDifference(a: nat, d: nat, m: nat)
    ensures (a + d) * m - a * m == d * m
  {
  }

  /** The windows of the samples that reach `v` and emit a token that is no child's. */
  ghost function OtherWindows(input: Input, vocab: nat, draws: nat, m: nat, v: nat, t: nat): (w: seq<set<nat>>)
    requires Fair(input, vocab) && v < |input.tree.kids| && t < vocab
    ensures |w| == |input.tree.kids| + 1
  {
    var reached := ReachWindows(input, vocab, draws, v);
    reached[v := RejectWindow(input, vocab, v)][|input.tree.kids| := TokenWindow(input, vocab, v, t, m)]
  }

  lemma EmitOtherBox(input: Input, vocab: nat, draws: nat, m: nat, v: nat, t: nat, s: Sample<nat>)
    requires Fair(input, vocab) && v < |input.tree.kids| && t < vocab && t !in KidTokens(input, v)
    requires Total(ResidualOf(input, vocab, v)) > 0 && draws == Total(ResidualOf(input, vocab, v)) * m
    ensures s in Box(OtherWindows(input, vocab, draws, m, v, t)) <==> s in Emitting(input, vocab, draws, v, t)
  {
    hide Box, Reaching, RejectWindow, TokenWindow, ResidualOf;
    var w, n := ReachWindows(input, vocab, draws, v), |input.tree.kids|;
    RejectSize(input, vocab, v);
    TokenSize(input, vocab, draws, v, t, m);
    ReachBox(input, vocab, draws, v, s);
    NarrowBox(w, v, RejectWindow(input, vocab, v), s);
    NarrowBox(w[v := RejectWindow(input, vocab, v)], n, TokenWindow(input, vocab, v, t, m), s);
    if s in Reaching(input, vocab, draws, v) {
      ReachRanges(input, vocab, draws, v, s);
      EmitsOther(input, vocab, draws, m, s, v, t);
      InWindows(input, vocab, v, t, m, s);
    }
  }

  lemma InWindows(input: Input, vocab: nat, v: nat, t: nat, m: nat, s: Sample<nat>)
    requires Fair(input, vocab) && v < |input.tree.kids| && t < vocab && |s| > |input.tree.kids|
    requires s[v] <= input.rule.scale
    ensures s[v] in RejectWindow(input, vocab, v) <==> s[v] > KidAcc(input, vocab, v, |input.tree.kids[v]|)
    ensures s[|input.tree.kids|] in TokenWindow(input, vocab, v, t, m) <==>
      Cdf(ResidualOf(input, vocab, v), t) * m <= s[|input.tree.kids|] < Cdf(ResidualOf(input, vocab, v), t + 1) * m
  {
  }

  lemma EmitOtherCount(input: Input, vocab: nat, draws: nat, m: nat, v: nat, t: nat)
    requires Fair(input, vocab) && v < |input.tree.kids| && t < vocab && t !in KidTokens(input, v) && draws > 0
    requires Total(ResidualOf(input, vocab, v)) > 0 && draws == Total(ResidualOf(input, vocab, v)) * m
    ensures |Emitting(input, vocab, draws, v, t)| * input.rule.scale
        == |Reaching(input, vocab, draws, v)| * input.target[v][t]
  {
    hide Box, Emitting, Reaching, OtherWindows, Product, Fair, ResidualOf;
    FairInput(input, vocab);
    forall s
      ensures s in Box(OtherWindows(input, vocab, draws, m, v, t)) <==> s in Emitting(input, vocab, draws, v, t)
    {
      EmitOtherBox(input, vocab, draws, m, v, t, s);
    }
    assert Box(OtherWindows(input, vocab, draws, m, v, t)) == Emitting(input, vocab, draws, v, t);
    BoxCard(OtherWindows(input, vocab, draws, m, v, t));
    ReachCount(input, vocab, draws, v);
    OtherProduct(input, vocab, draws, m, v, t);
  }

  lemma OtherProduct(input: Input, vocab: nat, draws: nat, m: nat, v: nat, t: nat)
    requires Fair(input, vocab) && v < |input.tree.kids| && t < vocab && t !in KidTokens(input, v) && draws > 0
    requires Total(ResidualOf(input, vocab, v)) > 0 && draws == Total(ResidualOf(input, vocab, v)) * m
    ensures Product(OtherWindows(input, vocab, draws, m, v, t)) * input.rule.scale
         == Product(ReachWindows(input, vocab, draws, v)) * input.target[v][t]
  {
    hide RejectWindow, TokenWindow, ReachWindows, Product, ResidualOf, Total;
    var w, n := ReachWindows(input, vocab, draws, v), |input.tree.kids|;
    var rej, tok := RejectWindow(input, vocab, v), TokenWindow(input, vocab, v, t, m);
    ProductUpdate(w, v, rej);
    ProductUpdate(w[v := rej], n, tok);
    RejectSize(input, vocab, v);
    TokenSize(input, vocab, draws, v, t, m);
    TwoRatios(Product(w[v := rej][n := tok]), Product(w[v := rej]), Product(w), input.rule.scale,
              Total(ResidualOf(input, vocab, v)), m, input.target[v][t]);
  }

  /** Two conditions in a row: the residual mass cancels. */
  lemma TwoRatios(emit: nat, rejected: nat, reach: nat, scale: nat, mass: nat, m: nat, weight: nat)
    requires rejected * scale == reach * mass && emit * (mass * m) == rejected * (weight * m) && mass * m > 0
    ensures emit * scale == reach * weight
  {
    assert (emit * scale) * (mass * m) == (emit * (mass * m)) * scale by { Shuffle(emit, scale, mass * m); }
    assert (rejected * (weight * m)) * scale
        == (rejected * scale) * (weight * m) by { Shuffle(rejected, weight * m, scale); }
    assert (reach * mass) * (weight * m) == (reach * weight) * (mass * m) by { Exchange(reach, mass, weight, m); }
    CancelFactor(emit * scale, reach * weight, mass * m);
  }

  lemma Shuffle(a: nat, b: nat, c: nat)
    ensures (a * b) * c == (a * c) * b
  {
    assert (a * b) * c == a * (b * c) == a * (c * b) == (a * c) * b;
  }

  lemma Exchange(a: nat, b: nat, c: nat, d: nat)
    ensures (a * b) * (c * d) == (a * c) * (b * d)
  {
    assert (a * b) * (c * d) == a * (b * (c * d)) == a * ((b * c) * d) == a * ((c * b) * d) == a * (c * (b * d));
  }

  lemma CancelFactor(a: nat, b: nat, k: nat)
    requires k > 0 && a * k == b * k
    ensures a == b
  {
    CancelScale(a, b, k);
    CancelScale(b, a, k);
  }

  /** When the children carry the whole mass, nothing else has weight and nothing is rejected. */
  lemma NoMassLeft(input: Input, vocab: nat, draws: nat, v: nat, t: nat)
    requires Fair(input, vocab) && v < |input.tree.kids| && t < vocab && t !in KidTokens(input, v)
    requires Total(ResidualOf(input, vocab, v)) == 0
    ensures input.target[v][t] == 0 && Emitting(input, vocab, draws, v, t) == {}
  {
    var w := ResidualOf(input, vocab, v);
    ResidualAt(input.target[v], KidTokens(input, v), |input.tree.kids[v]|, t);
    CdfMonotone(w, t + 1, |w|);
    KidAccFits(input, vocab, v, 0);
    forall s | s in Reaching(input, vocab, draws, v)
      ensures s !in Emitting(input, vocab, draws, v, t)
    {
      ReachRanges(input, vocab, draws, v, s);
      RejectedWindow(input, vocab, s, v);
      var r := Accepted(input, vocab, s, v);
      var k := input.tree.place[r.value];
      assert input.candidates[r.value] == KidTokens(input, v)[k];
    }
  }

  /** Losslessness.  Among all samples whose walk reaches `v`, the share that emits token `t`
      right after `v` is the target probability of `t` there.  The resolution of the final draw
      is any positive multiple of the node's residual mass. */
  lemma Lossless(input: Input, vocab: nat, draws: nat, m: nat, v: nat, t: nat)
    requires Fair(input, vocab) && v < |input.tree.kids| && t < vocab && draws > 0
    requires Total(ResidualOf(input, vocab, v)) > 0 ==> draws == Total(ResidualOf(input, vocab, v)) * m
    ensures |Emitting(input, vocab, draws, v, t)| * input.rule.scale
        == |Reaching(input, vocab, draws, v)| * input.target[v][t]
  {
    hide Emitting, Reaching, ResidualOf;
    if t in KidTokens(input, v) {
      var j: nat :| j < |KidTokens(input, v)| && KidTokens(input, v)[j] == t;
      EmitKidCount(input, vocab, draws, m, v, j);
    } else if Total(ResidualOf(input, vocab, v)) > 0 {
      EmitOtherCount(input, vocab, draws, m, v, t);
    } else {
      NoMassLeft(input, vocab, draws, v, t);
    }
  }

  /** Chain rule: a walk that reached the parent goes on to `v` with exactly the target
      probability of `v`'s token there. */
  lemma ReachStep(input: Input, vocab: nat, draws: nat, v: nat)
    requires Fair(input, vocab) && 0 < v < |input.tree.kids|
    ensures 0 <= input.tree.parent[v] < v
    ensures var u := input.tree.parent[v];
            |Reaching(input, vocab, draws, v)| * input.rule.scale
              == |Reaching(input, vocab, draws, u)| * input.target[u][input.candidates[v]]
  {
    hide Reaching, Product, KidWindow;
    TreeParent(input, vocab, v);
    var p: nat := input.tree.parent[v];
    var j := input.tree.place[v];
    ReachCount(input, vocab, draws, v);
    ReachCount(input, vocab, draws, p);
    KidWindowFits(input, vocab, p, j);
    ProductUpdate(ReachWindows(input, vocab, draws, p), p, KidWindow(input, vocab, p, j));
  }

  /** The walk's output is what `Emitted` says: with a zero residual buffer, the token after
      every node on the path is the emitted one, the bonus token included. */
  lemma {:induction false} WalkEmits(input: Input, vocab: nat, draws: nat, s: Sample<nat>, draft: seq<seq<nat>>,
      x: nat, i: nat)
    requires InputOk(input, vocab) && |s| > |input.tree.kids| && x < |input.tree.kids| && i < |Path(input, vocab, s, x)|
    requires RowsFit(draft, input, vocab) && forall v | 0 <= v < |draft| :: draft[v] == Zeros(vocab)
    ensures var path := Path(input, vocab, s, x);
      Emitted(input, vocab, draws, s, path[i]) ==
        if i + 1 < |path| then input.candidates[path[i + 1]]
        else BonusToken(input, vocab, draft, path[i], s[|input.tree.kids|], draws)
    decreases i
  {
    hide InputOk, TreeOk, Path, Accepted, Emitted, BonusToken, KidTokens;
    PathStep(input, vocab, s, x);
    var r := Accepted(input, vocab, s, x);
    EmittedAt(input, vocab, draws, s, draft, x);
    if i > 0 {
      var rest := Path(input, vocab, s, r.value);
      assert Path(input, vocab, s, x)[1..] == rest;
      WalkEmits(input, vocab, draws, s, draft, r.value, i - 1);
    }
  }

  lemma EmittedAt(input: Input, vocab: nat, draws: nat, s: Sample<nat>, draft: seq<seq<nat>>, v: nat)
    requires InputOk(input, vocab) && |s| > |input.tree.kids| && v < |input.tree.kids|
    requires RowsFit(draft, input, vocab) && forall v | 0 <= v < |draft| :: draft[v] == Zeros(vocab)
    ensures |input.candidates| == |input.tree.kids|
    ensures Emitted(input, vocab, draws, s, v) ==
      match Accepted(input, vocab, s, v)
      case Some(c) => input.candidates[c]
      case None => BonusToken(input, vocab, draft, v, s[|input.tree.kids|], draws)
  {
  }
}
