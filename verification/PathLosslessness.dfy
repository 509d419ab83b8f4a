/** Losslessness of whole outputs: counted over all coins and final draws, the tokens the walk emits
    follow the target distribution token by token, as far as the draft tree reaches. */
module PathLosslessness {
  import opened Wrappers
  import opened Counting
  import opened SpeculativeSampling
  import opened Losslessness

  /** The tokens the walk emits, one after each node it visits. */
  ghost function Output(input: Input, vocab: nat, draws: nat, s: Sample<nat>): (r: seq<nat>)
    requires InputOk(input, vocab) && |s| > |input.tree.kids|
    ensures |r| == |Path(input, vocab, s, 0)|
    ensures forall i | 0 <= i < |r| :: r[i] == Emitted(input, vocab, draws, s, Path(input, vocab, s, 0)[i])
  {
    EmittedAlong(input, vocab, draws, s, Path(input, vocab, s, 0))
  }

  ghost function EmissionAt(input: Input, vocab: nat, draws: nat, s: Sample<nat>, v: nat): nat
    requires InputOk(input, vocab) && |s| > |input.tree.kids|
  {
    if v < |input.tree.kids| then Emitted(input, vocab, draws, s, v) else 0
  }

  ghost function EmittedAlong(input: Input, vocab: nat, draws: nat, s: Sample<nat>, path: seq<nat>): (r: seq<nat>)
    requires InputOk(input, vocab) && |s| > |input.tree.kids|
    ensures |r| == |path| && forall i | 0 <= i < |r| :: r[i] == EmissionAt(input, vocab, draws, s, path[i])
  {
    hide EmissionAt;
    if path == [] then []
    else EmittedAlong(input, vocab, draws, s, path[..|path| - 1]) +
         [EmissionAt(input, vocab, draws, s, path[|path| - 1])]
  }

  /** The place of a token among a node's children. */
  ghost function PlaceOf(tokens: seq<nat>, t: nat): (r: Option<nat>)
    ensures r.Some? ==> r.value < |tokens| && tokens[r.value] == t
    ensures r.None? ==> t !in tokens
  {
    if tokens == [] then None
    else if tokens[|tokens| - 1] == t then Some(|tokens| - 1)
    else PlaceOf(tokens[..|tokens| - 1], t)
  }

  /** The node that a token string leads to from the root, if the tree has it. */
  ghost function NodeAt(input: Input, vocab: nat, p: seq<nat>): (r: Option<nat>)
    requires InputOk(input, vocab)
    ensures r.Some? ==> r.value < |input.tree.kids|
  {
    if p == [] then Some(0)
    else
      var n := |p| - 1;
      match NodeAt(input, vocab, p[..n])
      case None => None
      case Some(u) =>
        match PlaceOf(KidTokens(input, u), p[n])
        case None => None
        case Some(j) => Some(input.tree.kids[u][j])
  }

  /** Consecutive nodes of a path: the walk goes on exactly as it accepts. */
  lemma {:induction false} PathNext(input: Input, vocab: nat, s: Sample<nat>, x: nat, i: nat)
    requires InputOk(input, vocab) && |s| > |input.tree.kids| && x < |input.tree.kids| && i < |Path(input, vocab, s, x)|
    ensures var path := Path(input, vocab, s, x);
            Accepted(input, vocab, s, path[i]) == if i + 1 < |path| then Some(path[i + 1]) else None
    decreases i
  {
    hide InputOk, Accepted;
    var r := Accepted(input, vocab, s, x);
    if i > 0 {
      assert Path(input, vocab, s, x)[1..] == Path(input, vocab, s, r.value);
      PathNext(input, vocab, s, r.value, i - 1);
    }
  }

  /** An output that starts with `p` and goes on has followed `p` down the tree. */
  lemma {:induction false} FollowedTokens(input: Input, vocab: nat, draws: nat, s: Sample<nat>, p: seq<nat>)
    requires Fair(input, vocab) && |s| > |input.tree.kids|
    requires |p| < |Output(input, vocab, draws, s)| && p <= Output(input, vocab, draws, s)
    ensures NodeAt(input, vocab, p) == Some(Path(input, vocab, s, 0)[|p|])
  {
    hide Path, Accepted, InputOk, Fair, Emitted, KidTokens, PlaceOf;
    FairInput(input, vocab);
    if p == [] {
      PathStart(input, vocab, s);
    } else {
      var n := |p| - 1;
      FollowedTokens(input, vocab, draws, s, p[..n]);
      var path := Path(input, vocab, s, 0);
      PathNext(input, vocab, s, 0, n);
      TokenOfChild(input, vocab, draws, s, path[n], path[n + 1]);
      assert Output(input, vocab, draws, s)[n] == p[n];
      ChildByToken(input, vocab, path[n], path[n + 1]);
    }
  }

  lemma PathStart(input: Input, vocab: nat, s: Sample<nat>)
    requires InputOk(input, vocab) && |s| > |input.tree.kids|
    ensures Path(input, vocab, s, 0)[0] == 0
  {
  }

  lemma TokenOfChild(input: Input, vocab: nat, draws: nat, s: Sample<nat>, u: nat, c: nat)
    requires InputOk(input, vocab) && |s| > |input.tree.kids| && u < |input.tree.kids| && c < |input.tree.kids|
    requires Accepted(input, vocab, s, u) == Some(c)
    ensures c > 0 && input.tree.parent[c] == u && Emitted(input, vocab, draws, s, u) == input.candidates[c]
  {
  }

  /** Siblings carry different tokens, so the token names the child. */
  lemma ChildByToken(input: Input, vocab: nat, u: nat, c: nat)
    requires Fair(input, vocab) && u < |input.tree.kids| && 0 < c < |input.tree.kids| && input.tree.parent[c] == u
    ensures var j := PlaceOf(KidTokens(input, u), input.candidates[c]);
            j.Some? && j.value < |input.tree.kids[u]| && input.tree.kids[u][j.value] == c
  {
    var tokens, k := KidTokens(input, u), input.tree.place[c];
    assert tokens[k] == input.candidates[c];
    assert input.candidates[c] in tokens;
    var j := PlaceOf(tokens, input.candidates[c]).value;
    assert DistinctTokens(tokens) && tokens[j] == tokens[k];
  }

  /** Following one more token: the walk is at the parent and goes on to the child. */
  lemma OneMoreFollowed(input: Input, vocab: nat, draws: nat, s: Sample<nat>, p: seq<nat>, u: nat, v: nat)
    requires InputOk(input, vocab) && |s| > |input.tree.kids| && u < |input.tree.kids| && v < |input.tree.kids|
    requires p != [] && p[|p| - 1] == input.candidates[v] && Accepted(input, vocab, s, u) == Some(v)
    requires |p| - 1 < |Output(input, vocab, draws, s)| && p[..|p| - 1] <= Output(input, vocab, draws, s)
    requires Path(input, vocab, s, 0)[|p| - 1] == u
    ensures |p| < |Output(input, vocab, draws, s)| && p <= Output(input, vocab, draws, s)
  {
    hide Path, Accepted, InputOk, Emitted;
    var n := |p| - 1;
    var out := Output(input, vocab, draws, s);
    PathNext(input, vocab, s, 0, n);
    TokenOfChild(input, vocab, draws, s, u, v);
    assert out[n] == p[n];
    assert p == p[..n] + [p[n]] && out[..n + 1] == out[..n] + [out[n]];
  }

  /** The walk visits the node a token string leads to exactly if the output starts with the string
      and goes on. */
  lemma {:induction false} VisitIsPrefix(input: Input, vocab: nat, draws: nat, s: Sample<nat>, p: seq<nat>)
    requires Fair(input, vocab) && |s| > |input.tree.kids| && NodeAt(input, vocab, p).Some?
    ensures Visits(input, vocab, s, NodeAt(input, vocab, p).value)
       <==> |p| < |Output(input, vocab, draws, s)| && p <= Output(input, vocab, draws, s)
  {
    hide Path, Accepted, InputOk, Emitted, Fair;
    FairInput(input, vocab);
    var out, path, v := Output(input, vocab, draws, s), Path(input, vocab, s, 0), NodeAt(input, vocab, p).value;
    if |p| < |out| && p <= out {
      FollowedTokens(input, vocab, draws, s, p);
      assert path[|p|] in path;
    }
    if v in path && p != [] {
      var n := |p| - 1;
      var u := NodeAt(input, vocab, p[..n]).value;
      StepToChild(input, vocab, u, p[n]);
      VisitStep(input, vocab, s, 0, v);
      VisitIsPrefix(input, vocab, draws, s, p[..n]);
      FollowedTokens(input, vocab, draws, s, p[..n]);
      OneMoreFollowed(input, vocab, draws, s, p, u, v);
    }
  }

  lemma StepToChild(input: Input, vocab: nat, u: nat, t: nat)
    requires InputOk(input, vocab) && u < |input.tree.kids| && PlaceOf(KidTokens(input, u), t).Some?
    ensures var c := input.tree.kids[u][PlaceOf(KidTokens(input, u), t).value];
            0 < c < |input.tree.kids| && input.tree.parent[c] == u && input.candidates[c] == t
  {
  }

  /** The samples whose output starts with `q`. */
  ghost function Starting(input: Input, vocab: nat, draws: nat, q: seq<nat>): set<Sample<nat>>
    requires InputOk(input, vocab)
  {
    set s | s in Samples(input, draws) && |s| > |input.tree.kids| && q <= Output(input, vocab, draws, s)
  }

  /** An output starts with `p + [t]` exactly if the walk visits the node of `p` and emits `t` there. */
  lemma StartingIsEmitting(input: Input, vocab: nat, draws: nat, p: seq<nat>, t: nat)
    requires Fair(input, vocab) && NodeAt(input, vocab, p).Some?
    ensures Starting(input, vocab, draws, p + [t]) == Emitting(input, vocab, draws, NodeAt(input, vocab, p).value, t)
  {
    hide Path, InputOk, Emitted, Samples, NodeAt;
    FairInput(input, vocab);
    var v := NodeAt(input, vocab, p).value;
    forall s | s in Samples(input, draws) && |s| > |input.tree.kids|
      ensures p + [t] <= Output(input, vocab, draws, s)
         <==> Visits(input, vocab, s, v) && Emitted(input, vocab, draws, s, v) == t
    {
      var out := Output(input, vocab, draws, s);
      VisitIsPrefix(input, vocab, draws, s, p);
      if |p| < |out| && p <= out {
        FollowedTokens(input, vocab, draws, s, p);
        assert out[..|p| + 1] == out[..|p|] + [out[|p|]];
      }
      if p + [t] <= out {
        assert p == (p + [t])[..|p|] && out[..|p|] == out[..|p| + 1][..|p|];
      }
    }
  }

  // ---- The chain -----------------------------------------------------------------------------

  function Pow(b: nat, n: nat): nat {
    if n == 0 then 1 else Pow(b, n - 1) * b
  }

  /** The target's weight of a token string: the product of the weights at the nodes on its way. */
  ghost function PathWeight(input: Input, vocab: nat, q: seq<nat>): nat
    requires InputOk(input, vocab)
  {
    if q == [] then 1
    else
      var n := |q| - 1;
      match NodeAt(input, vocab, q[..n])
      case None => 0
      case Some(v) => PathWeight(input, vocab, q[..n]) * if q[n] < vocab then input.target[v][q[n]] else 0
  }

  /** The share of samples that reach the node of `p` is the target weight of `p`. */
  lemma {:induction false} ReachWeight(input: Input, vocab: nat, draws: nat, p: seq<nat>)
    requires Fair(input, vocab) && NodeAt(input, vocab, p).Some?
    ensures |Reaching(input, vocab, draws, NodeAt(input, vocab, p).value)| * Pow(input.rule.scale, |p|)
         == |Samples(input, draws)| * PathWeight(input, vocab, p)
  {
    hide Reaching, Samples, InputOk;
    FairInput(input, vocab);
    var v := NodeAt(input, vocab, p).value;
    if p == [] {
      RootReached(input, vocab, draws);
    } else {
      var n := |p| - 1;
      var u := NodeAt(input, vocab, p[..n]).value;
      StepToChild(input, vocab, u, p[n]);
      TokenInVocab(input, vocab, v);
      ReachWeight(input, vocab, draws, p[..n]);
      ReachStep(input, vocab, draws, v);
      Chain(|Reaching(input, vocab, draws, v)|, |Reaching(input, vocab, draws, u)|, input.rule.scale,
          input.target[u][p[n]],
            Pow(input.rule.scale, n), |Samples(input, draws)|, PathWeight(input, vocab, p[..n]));
    }
  }

  lemma TokenInVocab(input: Input, vocab: nat, v: nat)
    requires InputOk(input, vocab) && v < |input.tree.kids|
    ensures input.candidates[v] < vocab
  {
  }

  lemma RootReached(input: Input, vocab: nat, draws: nat)
    requires Fair(input, vocab)
    ensures Reaching(input, vocab, draws, 0) == Samples(input, draws)
  {
    forall s | s in Samples(input, draws)
      ensures |s| > |input.tree.kids| && Visits(input, vocab, s, 0)
    {
      BoxMember(AllDraws(|input.tree.kids|, input.rule.scale, draws), s);
      VisitStep(input, vocab, s, 0, 0);
    }
  }

  /** `step * k == from * w` and `from * pow == all * weight` give the next link. */
  lemma Chain(step: nat, from: nat, k: nat, w: nat, pow: nat, all: nat, weight: nat)
    requires step * k == from * w && from * pow == all * weight
    ensures step * (pow * k) == all * (weight * w)
  {
    assert step * (pow * k) == (step * k) * pow by { Shuffle(step, k, pow); Group(step, pow, k); }
    assert (from * w) * pow == (from * pow) * w by { Shuffle(from, w, pow); }
    Group(all, weight, w);
  }

  lemma Group(a: nat, b: nat, c: nat)
    ensures a * (b * c) == (a * b) * c
  {
  }

  /** Losslessness of the output: the share of samples whose output starts with `q` is the product of
      the target weights of its tokens, for every `q` that stays in the tree up to its last token. */
  lemma OutputLossless(input: Input, vocab: nat, draws: nat, m: nat, q: seq<nat>)
    requires Fair(input, vocab) && q != [] && q[|q| - 1] < vocab && draws > 0
    requires NodeAt(input, vocab, q[..|q| - 1]).Some?
    requires var left := Total(ResidualOf(input, vocab, NodeAt(input, vocab, q[..|q| - 1]).value)); left > 0 ==>
        draws == left * m
    ensures |Starting(input, vocab, draws, q)| * Pow(input.rule.scale, |q|)
         == |Samples(input, draws)| * PathWeight(input, vocab, q)
  {
    hide Reaching, Samples, InputOk, Emitting, Starting, ResidualOf, NodeAt;
    FairInput(input, vocab);
    var n := |q| - 1;
    var p, t := q[..n], q[n];
    var v := NodeAt(input, vocab, p).value;
    assert q == p + [t];
    StartingIsEmitting(input, vocab, draws, p, t);
    ReachWeight(input, vocab, draws, p);
    Lossless(input, vocab, draws, m, v, t);
    Chain(|Emitting(input, vocab, draws, v, t)|, |Reaching(input, vocab, draws, v)|, input.rule.scale,
        input.target[v][t],
          Pow(input.rule.scale, n), |Samples(input, draws)|, PathWeight(input, vocab, p));
  }

  /** Outputs never go on past a token that is no child's. */
  lemma OffTreeIsLast(input: Input, vocab: nat, draws: nat, q: seq<nat>)
    requires Fair(input, vocab) && q != [] && NodeAt(input, vocab, q[..|q| - 1]).None?
    ensures Starting(input, vocab, draws, q) == {}
  {
    hide NodeAt, Samples;
    var p := q[..|q| - 1];
    forall s | s in Samples(input, draws) && |s| > |input.tree.kids|
      ensures !(q <= Output(input, vocab, draws, s))
    {
      if q <= Output(input, vocab, draws, s) {
        assert p == Output(input, vocab, draws, s)[..|p|];
        FollowedTokens(input, vocab, draws, s, p);
      }
    }
  }

  /** `SampleTree` with a zero residual buffer predicts this output: gathered at `acceptIndex`, its
      `predicts` are the emitted tokens, bonus included. */
  lemma PredictsAreOutput(
    input: Input, vocab: nat, draws: nat, s: Sample<nat>, draft: seq<seq<nat>>, retriveIndex: seq<nat>,
    predicts: seq<int>, predicts0: seq<int>, acceptIndex: seq<int>, acceptIndex0: seq<int>, i: nat)
    requires InputOk(input, vocab) && |s| > |input.tree.kids| && i < |Path(input, vocab, s, 0)|
    requires RowsFit(draft, input, vocab) && forall v | 0 <= v < |draft| :: draft[v] == Zeros(vocab)
    requires var path := Path(input, vocab, s, 0);
             Written(input, retriveIndex, path,
                 BonusToken(input, vocab, draft, path[|path| - 1], s[|input.tree.kids|], draws),
                     predicts, predicts0, acceptIndex, acceptIndex0)
    ensures i < |acceptIndex| && 0 <= acceptIndex[i] < |predicts|
    ensures predicts[acceptIndex[i]] == Output(input, vocab, draws, s)[i]
  {
    hide Path, Emitted, BonusToken, InputOk;
    WalkEmits(input, vocab, draws, s, draft, 0, i);
    var path := Path(input, vocab, s, 0);
    assert path[i] == path[i];
  }
}
