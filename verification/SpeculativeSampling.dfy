/** Tree speculative sampling of spec_sample.py: a walk down a first-child / next-sibling tree of
    draft tokens that accepts or rejects children against the target distribution.

    Probabilities, coins and thresholds are integers in units of 1/scale; the final draw is an
    integer in units of 1/draws. */
module SpeculativeSampling {
  import opened Wrappers
  import opened Counting

  // ---------- Trees ----------

  /** A rooted tree over the nodes 0..n: children lists, and for every other node its parent and
      its place among its siblings.  Parents come before children. */
  datatype Tree = Tree(kids: seq<seq<nat>>, parent: seq<int>, place: seq<nat>)

  ghost predicate TreeOk(tree: Tree) {
    && |tree.kids| == |tree.parent| == |tree.place| > 0
    && (forall v {:trigger tree.parent[v]} | 0 < v < |tree.kids| ::
          && 0 <= tree.parent[v] < v && tree.place[v] < |tree.kids[tree.parent[v]]|
          && tree.kids[tree.parent[v]][tree.place[v]] == v)
    && (forall p, j {:trigger tree.kids[p][j]} | 0 <= p < |tree.kids| && 0 <= j < |tree.kids[p]| ::
          p < tree.kids[p][j] < |tree.kids| && tree.parent[tree.kids[p][j]] == p && tree.place[tree.kids[p][j]] == j)
  }

  /** The arrays `retrive_next_token` and `retrive_next_sibling` spell out the children lists. */
  ghost predicate Links(tree: Tree, nextToken: seq<int>, nextSibling: seq<int>) {
    && |nextToken| == |nextSibling| == |tree.kids|
    && (forall p | 0 <= p < |tree.kids| :: nextToken[p] == KidAt(tree, p, 0))
    && (forall p, j {:trigger tree.kids[p][j]} | 0 <= p < |tree.kids| && 0 <= j < |tree.kids[p]|
         && 0 <= tree.kids[p][j] < |nextSibling| ::
          nextSibling[tree.kids[p][j]] == KidAt(tree, p, j + 1))
  }

  function KidAt(tree: Tree, p: nat, j: nat): int
    requires p < |tree.kids|
  {
    if j < |tree.kids[p]| then tree.kids[p][j] else -1
  }

  // ---------- Accepting a child ----------

  /** `scale` is one whole; both thresholds of the sampler are one whole by default. */
  datatype Rule = Rule(scale: nat, single: int, acc: int)

  predicate Hit(rule: Rule, coin: nat, prob: nat, probAcc: nat) {
    prob >= rule.single || (rule.acc > 0 ==> coin * rule.acc <= probAcc * rule.scale)
  }

  /** What the walk needs at one node: the target row, the coin and the children's tokens. */
  datatype Node = Node(tokens: seq<nat>, probs: seq<nat>, coin: nat)

  predicate NodeOk(node: Node) {
    forall j | 0 <= j < |node.tokens| :: node.tokens[j] < |node.probs|
  }

  /** Probability of the first `j` children together. */
  function ProbAcc(tokens: seq<nat>, probs: seq<nat>, j: nat): nat
    requires j <= |tokens| && forall i | 0 <= i < |tokens| :: tokens[i] < |probs|
  {
    if j == 0 then 0 else ProbAcc(tokens, probs, j - 1) + probs[tokens[j - 1]]
  }

  /** The first child from `j` on that is accepted. */
  function Choose(rule: Rule, node: Node, j: nat): (r: Option<nat>)
    requires NodeOk(node) && j <= |node.tokens|
    ensures r.Some? ==> j <= r.value < |node.tokens|
    decreases |node.tokens| - j
  {
    if j == |node.tokens| then None
    else if Hit(rule, node.coin, node.probs[node.tokens[j]], ProbAcc(node.tokens, node.probs, j + 1)) then Some(j)
    else Choose(rule, node, j + 1)
  }

  // ---------- The draw from the residual ----------

  function Cdf(probs: seq<nat>, k: nat): nat
    requires k <= |probs|
  {
    if k == 0 then 0 else Cdf(probs, k - 1) + probs[k - 1]
  }

  function Total(probs: seq<nat>): nat {
    Cdf(probs, |probs|)
  }

  /** `torch.argmax`. */
  function ArgMax(probs: seq<nat>, k: nat): (r: nat)
    requires 0 < k <= |probs|
    ensures r < k && forall i | 0 <= i < k :: probs[i] <= probs[r]
  {
    if k == 1 then 0
    else
      var best := ArgMax(probs, k - 1);
      if probs[k - 1] > probs[best] then k - 1 else best
  }

  /** `torch.searchsorted(cdf, u01 * total, right=True)`, clamped to the vocabulary. */
  function Search(probs: seq<nat>, k: nat, u: nat, draws: nat): (r: nat)
    requires k < |probs|
    ensures k <= r < |probs|
    decreases |probs| - k
  {
    if k + 1 == |probs| || Cdf(probs, k + 1) * draws > u * Total(probs) then k else Search(probs, k + 1, u, draws)
  }

  /** `_sample_from_probs`. */
  function SampleFromProbs(probs: seq<nat>, u: nat, draws: nat): (r: nat)
    requires probs != []
    ensures r < |probs|
  {
    if Total(probs) == 0 then ArgMax(probs, |probs|) else Search(probs, 0, u, draws)
  }

  /** `target - draft`, clamped at zero. */
  function Clamped(probs: seq<nat>, draft: seq<nat>): (r: seq<nat>)
    requires |draft| == |probs|
    ensures |r| == |probs| && forall t | 0 <= t < |r| :: r[t] == if probs[t] >= draft[t] then probs[t] - draft[t] else 0
  {
    seq(|probs|, t requires 0 <= t < |probs| => if probs[t] >= draft[t] then probs[t] - draft[t] else 0)
  }

  /** The residual buffer after the listed tokens were rejected. */
  function Rejected(probs: seq<nat>, draft: seq<nat>, tokens: seq<nat>, j: nat): (r: seq<nat>)
    requires |draft| == |probs| && j <= |tokens| && forall i | 0 <= i < |tokens| :: tokens[i] < |probs|
    ensures |r| == |draft|
  {
    if j == 0 then draft else Rejected(probs, draft, tokens, j - 1)[tokens[j - 1] := probs[tokens[j - 1]]]
  }

  // ---------- The walk ----------

  datatype Input = Input(tree: Tree, candidates: seq<nat>, target: seq<seq<nat>>, rule: Rule)

  ghost predicate InputOk(input: Input, vocab: nat) {
    && TreeOk(input.tree) && |input.candidates| == |input.target| == |input.tree.kids| && vocab > 0
    && (forall v | 0 <= v < |input.target| :: |input.target[v]| == vocab && input.candidates[v] < vocab)
  }

  ghost function KidTokens(input: Input, v: nat): (r: seq<nat>)
    requires TreeOk(input.tree) && v < |input.tree.kids| == |input.candidates|
    ensures |r| == |input.tree.kids[v]| && forall j | 0 <= j < |r| :: r[j] == input.candidates[input.tree.kids[v][j]]
  {
    seq(|input.tree.kids[v]|, j requires 0 <= j < |input.tree.kids[v]| => input.candidates[input.tree.kids[v][j]])
  }

  ghost function NodeOf(input: Input, vocab: nat, coins: seq<nat>, v: nat): (r: Node)
    requires InputOk(input, vocab) && |coins| >= |input.tree.kids| && v < |input.tree.kids|
    ensures NodeOk(r) && |r.probs| == vocab && |r.tokens| == |input.tree.kids[v]|
    ensures r.tokens == KidTokens(input, v) && r.probs == input.target[v] && r.coin == coins[v]
  {
    Node(KidTokens(input, v), input.target[v], coins[v])
  }

  /** The child the walk accepts at `v`, if any. */
  ghost function Accepted(input: Input, vocab: nat, coins: seq<nat>, v: nat): (r: Option<nat>)
    requires InputOk(input, vocab) && |coins| >= |input.tree.kids| && v < |input.tree.kids|
    ensures r.Some? ==> v < r.value < |input.tree.kids| && input.tree.parent[r.value] == v
    ensures r.Some? ==> Choose(input.rule, NodeOf(input, vocab, coins, v), 0) == Some(input.tree.place[r.value])
    ensures r.None? <==> Choose(input.rule, NodeOf(input, vocab, coins, v), 0) == None
  {
    match Choose(input.rule, NodeOf(input, vocab, coins, v), 0)
    case None => None
    case Some(j) => Some(input.tree.kids[v][j])
  }

  /** The nodes the walk visits from `v` on. */
  ghost function Path(input: Input, vocab: nat, coins: seq<nat>, v: nat): (path: seq<nat>)
    requires InputOk(input, vocab) && |coins| >= |input.tree.kids| && v < |input.tree.kids|
    ensures path != [] && path[0] == v && |path| <= |input.tree.kids| - v
    ensures forall i | 0 <= i < |path| :: v <= path[i] < |input.tree.kids|
    ensures forall i, k | 0 <= i < k < |path| :: path[i] < path[k]
    decreases |input.tree.kids| - v
  {
    match Accepted(input, vocab, coins, v)
    case None => [v]
    case Some(c) => [v] + Path(input, vocab, coins, c)
  }

  // ---------- The imperative walk ----------

  /** The buffers after a walk along `path`: each visited node's slot of `predicts` holds the token
      that follows it, the last one the bonus token, and `acceptIndex` lists the slots. */
  ghost predicate Written(input: Input, retriveIndex: seq<nat>, path: seq<nat>, bonus: nat,
                          predicts: seq<int>, predicts0: seq<int>, acceptIndex: seq<int>, acceptIndex0: seq<int>)
  {
    && |predicts| == |predicts0| && |acceptIndex| == |acceptIndex0| >= |path| > 0
    && (forall i | 0 <= i < |path| ::
         path[i] < |retriveIndex| && path[i] < |input.candidates| && retriveIndex[path[i]] < |predicts|)
    && (forall i | 0 <= i < |path| :: acceptIndex[i] == retriveIndex[path[i]])
    && (forall i {:trigger path[i]} | 0 <= i < |path| ::
         predicts[retriveIndex[path[i]]] == if i + 1 < |path| then input.candidates[path[i + 1]] else bonus)
    && (forall i | |path| <= i < |acceptIndex| :: acceptIndex[i] == acceptIndex0[i])
    && (forall x | 0 <= x < |predicts| && (forall i | 0 <= i < |path| :: retriveIndex[path[i]] != x) ::
         predicts[x] == predicts0[x])
  }

  /** Rows of the residual buffer. */
  ghost predicate RowsFit(rows: seq<seq<nat>>, input: Input, vocab: nat) {
    |rows| == |input.tree.kids| && forall v | 0 <= v < |rows| :: |rows[v]| == vocab
  }

  lemma ChildFacts(input: Input, vocab: nat, nextToken: seq<int>, nextSibling: seq<int>, p: nat, j: nat)
    requires InputOk(input, vocab) && Links(input.tree, nextToken, nextSibling) && p < |input.tree.kids|
    ensures p < |nextToken| && nextToken[p] == KidAt(input.tree, p, 0) && p < |input.target|
    ensures |input.target[p]| == vocab
    ensures j < |input.tree.kids[p]| ==>
      var child := input.tree.kids[p][j];
      && child < |input.candidates| && child < |nextSibling| && nextSibling[child] == KidAt(input.tree, p, j + 1)
      && child >= 0 && input.candidates[child] < vocab && KidTokens(input, p)[j] == input.candidates[child]
  {
  }

  /** The inner loop: try the children of `current` in sibling order; every rejected child's
      probability is recorded in the residual buffer. */
  method TryChildren(input: Input, vocab: nat, nextToken: seq<int>, nextSibling: seq<int>, coins: seq<nat>,
                     current: nat, draftProbs: array<seq<nat>>)
    returns (accepted: int, ghost tried: nat)
    requires InputOk(input, vocab) && |coins| >= |input.tree.kids| && current < |input.tree.kids|
    requires Links(input.tree, nextToken, nextSibling) && current < draftProbs.Length && |draftProbs[current]| == vocab
    modifies draftProbs
    ensures accepted == (match Accepted(input, vocab, coins, current) case None => -1 case Some(c) => c)
    ensures tried == Tried(input, vocab, coins, current) && (accepted == -1 ==> tried == |input.tree.kids[current]|)
    ensures draftProbs[..] == old(draftProbs[..])[current :=
        Rejected(input.target[current], old(draftProbs[current]), KidTokens(input, current), tried)]
  {
    hide InputOk, TreeOk, Links, KidTokens, NodeOf, Choose, Rejected, ProbAcc;
    ghost var node := NodeOf(input, vocab, coins, current);
    ghost var kids := input.tree.kids[current];
    ChildFacts(input, vocab, nextToken, nextSibling, current, 0);
    TryNone(input.rule, node, draftProbs[current]);
    var child := nextToken[current];
    var coin := coins[current];
    var probAcc: nat := 0;
    accepted, tried := -1, 0;
    while child != -1
      invariant tried <= |kids| && child == KidAt(input.tree, current, tried)
      invariant probAcc == ProbAcc(node.tokens, node.probs, tried)
      invariant Choose(input.rule, node, 0) == Choose(input.rule, node, tried)
      invariant draftProbs[current] == Rejected(node.probs, old(draftProbs[current]), node.tokens, tried)
      invariant forall v | 0 <= v < draftProbs.Length && v != current :: draftProbs[v] == old(draftProbs[v])
      decreases |kids| - tried
    {
      ChildFacts(input, vocab, nextToken, nextSibling, current, tried);
      TryOne(input.rule, node, old(draftProbs[current]), tried);
      var tokenId := input.candidates[child];
      var probSingle := input.target[current][tokenId];
      probAcc := probAcc + probSingle;
      if Hit(input.rule, coin, probSingle, probAcc) {
        assert input.tree.place[child] == tried by { KidPlace(input, vocab, current, tried); }
        accepted := child;
        return;
      }
      draftProbs[current] := draftProbs[current][tokenId := input.target[current][tokenId]];
      child := nextSibling[child];
      tried := tried + 1;
    }
    TryAll(input.rule, node);
  }

  lemma KidPlace(input: Input, vocab: nat, p: nat, j: nat)
    requires InputOk(input, vocab) && p < |input.tree.kids| && j < |input.tree.kids[p]|
    ensures input.tree.kids[p][j] < |input.tree.place| && input.tree.place[input.tree.kids[p][j]] == j
  {
  }

  lemma TryNone(rule: Rule, node: Node, draft: seq<nat>)
    requires NodeOk(node) && |draft| == |node.probs|
    ensures ProbAcc(node.tokens, node.probs, 0) == 0 && Rejected(node.probs, draft, node.tokens, 0) == draft
  {
  }

  lemma TryOne(rule: Rule, node: Node, draft: seq<nat>, j: nat)
    requires NodeOk(node) && |draft| == |node.probs| && j < |node.tokens|
    ensures var t := node.tokens[j];
      && ProbAcc(node.tokens, node.probs, j + 1) == ProbAcc(node.tokens, node.probs, j) + node.probs[t]
      && Rejected(node.probs, draft, node.tokens, j + 1)
           == Rejected(node.probs, draft, node.tokens, j)[t := node.probs[t]]
      && Choose(rule, node, j) ==
           if Hit(rule, node.coin, node.probs[t], ProbAcc(node.tokens, node.probs, j + 1)) then Some(j)
           else Choose(rule, node, j + 1)
  {
  }

  lemma TryAll(rule: Rule, node: Node)
    requires NodeOk(node)
    ensures Choose(rule, node, |node.tokens|) == None
  {
  }

  /** The buffers while the walk stands at the last node of `path`. */
  ghost predicate Visited(input: Input, retriveIndex: seq<nat>, path: seq<nat>,
                          predicts: seq<int>, predicts0: seq<int>, acceptIndex: seq<int>, acceptIndex0: seq<int>)
  {
    && |predicts| == |predicts0| && |acceptIndex| == |acceptIndex0| >= |path| > 0
    && (forall i | 0 <= i < |path| ::
         path[i] < |retriveIndex| && path[i] < |input.candidates| && retriveIndex[path[i]] < |predicts|)
    && (forall i, k | 0 <= i < k < |path| :: retriveIndex[path[i]] != retriveIndex[path[k]])
    && (forall i | 0 <= i < |path| - 1 :: acceptIndex[i] == retriveIndex[path[i]])
    && (forall i {:trigger path[i]} | 0 <= i < |path| - 1 ::
         predicts[retriveIndex[path[i]]] == input.candidates[path[i + 1]])
    && (forall i | |path| - 1 <= i < |acceptIndex| :: acceptIndex[i] == acceptIndex0[i])
    && (forall x | 0 <= x < |predicts| && (forall i | 0 <= i < |path| - 1 :: retriveIndex[path[i]] != x) ::
         predicts[x] == predicts0[x])
  }

  /** The residual row of `v` after its first `n` children were rejected: the target's entry for each of
      their tokens. */
  ghost predicate RowTried(input: Input, vocab: nat, v: nat, n: nat, was: seq<nat>, now: seq<nat>)
    requires InputOk(input, vocab) && v < |input.tree.kids| && n <= |input.tree.kids[v]|
  {
    && |was| == |now| == vocab
    && forall t: nat | t < vocab ::
         now[t] == if t in KidTokens(input, v)[..n] then input.target[v][t] else was[t]
  }

  /** How many children of `v` the walk rejects: those before the one it accepts, or all. */
  ghost function Tried(input: Input, vocab: nat, coins: seq<nat>, v: nat): (n: nat)
    requires InputOk(input, vocab) && |coins| >= |input.tree.kids| && v < |input.tree.kids|
    ensures n <= |input.tree.kids[v]|
  {
    match Accepted(input, vocab, coins, v)
    case None => |input.tree.kids[v]|
    case Some(c) => input.tree.place[c]
  }

  /** The residual rows once the nodes of `path` are done; the rows of all others stay. */
  ghost predicate RowsTried(input: Input, vocab: nat, coins: seq<nat>, path: seq<nat>, was: seq<seq<nat>>,
      now: seq<seq<nat>>)
    requires InputOk(input, vocab) && |coins| >= |input.tree.kids|
  {
    && |was| == |now| == |input.tree.kids|
    && forall v: nat | v < |now| ::
         if v in path then RowTried(input, vocab, v, Tried(input, vocab, coins, v), was[v], now[v])
         else now[v] == was[v]
  }

  lemma {:induction false} RejectedIs(probs: seq<nat>, draft: seq<nat>, tokens: seq<nat>, j: nat, t: nat)
    requires |draft| == |probs| && j <= |tokens| && t < |probs| && forall i | 0 <= i < |tokens| :: tokens[i] < |probs|
    ensures Rejected(probs, draft, tokens, j)[t] == if t in tokens[..j] then probs[t] else draft[t]
  {
    if j > 0 {
      RejectedIs(probs, draft, tokens, j - 1, t);
      assert tokens[..j] == tokens[..j - 1] + [tokens[j - 1]];
    }
  }

  lemma KidsInVocab(input: Input, vocab: nat, v: nat)
    requires InputOk(input, vocab) && v < |input.tree.kids|
    ensures forall i | 0 <= i < |input.tree.kids[v]| :: KidTokens(input, v)[i] < vocab
  {
  }

  lemma RowIsTried(input: Input, vocab: nat, v: nat, n: nat, was: seq<nat>, now: seq<nat>)
    requires InputOk(input, vocab) && v < |input.tree.kids| && n <= |input.tree.kids[v]| && |was| == vocab
    requires now == Rejected(input.target[v], was, KidTokens(input, v), n)
    ensures RowTried(input, vocab, v, n, was, now)
  {
    hide TreeOk, KidTokens, Rejected;
    KidsInVocab(input, vocab, v);
    forall t: nat | t < vocab
      ensures now[t] == if t in KidTokens(input, v)[..n] then input.target[v][t] else was[t]
    {
      RejectedIs(input.target[v], was, KidTokens(input, v), n, t);
    }
  }

  /** The children of one more node were tried. */
  lemma RowsStep(input: Input, vocab: nat, coins: seq<nat>, path: seq<nat>, v: nat, row: seq<nat>,
      was: seq<seq<nat>>, now: seq<seq<nat>>)
    requires InputOk(input, vocab) && |coins| >= |input.tree.kids| && v < |input.tree.kids|
    requires RowsTried(input, vocab, coins, path, was, now) && RowsFit(was, input, vocab) && now[v] == was[v]
    requires row == Rejected(input.target[v], was[v], KidTokens(input, v), Tried(input, vocab, coins, v))
    ensures RowsTried(input, vocab, coins, path + [v], was, now[v := row])
  {
    hide TreeOk, KidTokens, Rejected, RowTried, Accepted;
    RowIsTried(input, vocab, v, Tried(input, vocab, coins, v), was[v], row);
  }

  ghost predicate Apart(retriveIndex: seq<nat>) {
    forall v, w | 0 <= v < w < |retriveIndex| :: retriveIndex[v] != retriveIndex[w]
  }

  ghost predicate Rising(path: seq<nat>) {
    forall i, k | 0 <= i < k < |path| :: path[i] < path[k]
  }

  /** One accepted child. */
  lemma VisitChild(input: Input, retriveIndex: seq<nat>, path: seq<nat>, child: nat,
                   predicts: seq<int>, predicts0: seq<int>, acceptIndex: seq<int>, acceptIndex0: seq<int>)
    requires Visited(input, retriveIndex, path, predicts, predicts0, acceptIndex, acceptIndex0)
    requires |path| < |acceptIndex| && child < |retriveIndex| && child < |input.candidates|
    requires retriveIndex[child] < |predicts|
    requires Apart(retriveIndex) && Rising(path) && path[|path| - 1] < child
    ensures Rising(path + [child])
    ensures var last := |path| - 1;
      Visited(input, retriveIndex, path + [child], predicts[retriveIndex[path[last]] := input.candidates[child]],
              predicts0, acceptIndex[last := retriveIndex[path[last]]], acceptIndex0)
  {
    var last := |path| - 1;
    var path' := path + [child];
    var predicts' := predicts[retriveIndex[path[last]] := input.candidates[child]];
    forall x | 0 <= x < |predicts'| && (forall i | 0 <= i < |path'| - 1 :: retriveIndex[path'[i]] != x)
      ensures predicts'[x] == predicts0[x]
    {
      assert path'[last] == path[last];
      assert forall i | 0 <= i < last :: path'[i] == path[i];
    }
    forall i, k | 0 <= i < k < |path'|
      ensures retriveIndex[path'[i]] != retriveIndex[path'[k]]
    {
      assert path'[i] < path'[k];
    }
    forall i {:trigger path'[i]} | 0 <= i < |path'| - 1
      ensures predicts'[retriveIndex[path'[i]]] == input.candidates[path'[i + 1]]
    {
      assert path'[i] == path[i];
      if i < last {
        assert path'[i + 1] == path[i + 1];
      }
    }
  }

  /** The bonus token ends the walk. */
  lemma VisitBonus(input: Input, retriveIndex: seq<nat>, path: seq<nat>, bonus: nat,
                   predicts: seq<int>, predicts0: seq<int>, acceptIndex: seq<int>, acceptIndex0: seq<int>)
    requires Visited(input, retriveIndex, path, predicts, predicts0, acceptIndex, acceptIndex0)
    ensures var last := |path| - 1;
      Written(input, retriveIndex, path, bonus, predicts[retriveIndex[path[last]] := bonus], predicts0,
              acceptIndex[last := retriveIndex[path[last]]], acceptIndex0)
  {
    var last := |path| - 1;
    var predicts' := predicts[retriveIndex[path[last]] := bonus];
    forall i | 0 <= i < |path|
      ensures predicts'[retriveIndex[path[i]]] == if i + 1 < |path| then input.candidates[path[i + 1]] else bonus
    {
    }
    forall x | 0 <= x < |predicts'| && (forall i | 0 <= i < |path| :: retriveIndex[path[i]] != x)
      ensures predicts'[x] == predicts0[x]
    {
      assert retriveIndex[path[last]] != x;
    }
  }

  datatype Buffers = Buffers(predicts: seq<int>, acceptIndex: seq<int>, rows: seq<seq<nat>>)

  /** The walk stands at the last node of `path`, with the nodes before it done. */
  ghost predicate Walked(input: Input, vocab: nat, coins: seq<nat>, retriveIndex: seq<nat>, path: seq<nat>,
      was: Buffers, now: Buffers)
    requires InputOk(input, vocab) && |coins| >= |input.tree.kids|
  {
    && path != [] && Rising(path) && path[|path| - 1] < |input.tree.kids| && |path| <= path[|path| - 1] + 1
    && Path(input, vocab, coins, 0) == path[..|path| - 1] + Path(input, vocab, coins, path[|path| - 1])
    && Visited(input, retriveIndex, path, now.predicts, was.predicts, now.acceptIndex, was.acceptIndex)
    && RowsTried(input, vocab, coins, path[..|path| - 1], was.rows, now.rows)
    && forall v | path[|path| - 1] <= v < |now.rows| :: now.rows[v] == was.rows[v]
  }

  /** The buffers of a walk along the whole path. */
  ghost predicate Sampled(input: Input, vocab: nat, coins: seq<nat>, retriveIndex: seq<nat>, finalDraw: nat, draws: nat,
      path: seq<nat>, was: Buffers, now: Buffers)
    requires InputOk(input, vocab) && |coins| >= |input.tree.kids| && RowsFit(was.rows, input, vocab)
    requires path != [] && path[|path| - 1] < |input.tree.kids|
  {
    && Written(input, retriveIndex, path, BonusToken(input, vocab, was.rows, path[|path| - 1], finalDraw, draws),
               now.predicts, was.predicts, now.acceptIndex, was.acceptIndex)
    && RowsTried(input, vocab, coins, path, was.rows, now.rows)
  }

  /** The buffers once the children of `current` were tried and `token` emitted. */
  function AfterEmit(b: Buffers, retriveIndex: seq<nat>, current: nat, last: nat, token: nat, row: seq<nat>): Buffers
    requires current < |retriveIndex| && retriveIndex[current] < |b.predicts| && last < |b.acceptIndex|
    requires current < |b.rows|
  {
    Buffers(b.predicts[retriveIndex[current] := token], b.acceptIndex[last := retriveIndex[current]],
            b.rows[current := row])
  }

  lemma WalkOn(input: Input, vocab: nat, coins: seq<nat>, retriveIndex: seq<nat>, path: seq<nat>, was: Buffers,
      now: Buffers, row: seq<nat>)
    requires InputOk(input, vocab) && |coins| >= |input.tree.kids| && RowsFit(was.rows, input, vocab)
    requires Apart(retriveIndex) && |retriveIndex| == |input.tree.kids| == |now.acceptIndex| == |now.rows|
    requires forall v | 0 <= v < |retriveIndex| :: retriveIndex[v] < |now.predicts|
    requires Walked(input, vocab, coins, retriveIndex, path, was, now)
    requires var v := path[|path| - 1];
      && Accepted(input, vocab, coins, v).Some?
      && row == Rejected(input.target[v], was.rows[v], KidTokens(input, v), Tried(input, vocab, coins, v))
    ensures var child := Accepted(input, vocab, coins, path[|path| - 1]).value;
      Walked(input, vocab, coins, retriveIndex, path + [child], was,
             AfterEmit(now, retriveIndex, path[|path| - 1], |path| - 1, input.candidates[child], row))
  {
    hide TreeOk, KidTokens, Accepted, Visited, Path, Rejected, Apart, Rising, RowsTried, Tried, NodeOf;
    var last := |path| - 1;
    var v := path[last];
    var child := Accepted(input, vocab, coins, v).value;
    PathStep(input, vocab, coins, v);
    LastSplit(path);
    RowsStep(input, vocab, coins, path[..last], v, row, was.rows, now.rows);
    VisitChild(input, retriveIndex, path, child, now.predicts, was.predicts, now.acceptIndex, was.acceptIndex);
    Regroup(path[..last], v, Path(input, vocab, coins, child));
    assert (path + [child])[..|path|] == path;
  }

  lemma WalkEnd(input: Input, vocab: nat, coins: seq<nat>, retriveIndex: seq<nat>, path: seq<nat>, was: Buffers,
      now: Buffers, row: seq<nat>, finalDraw: nat, draws: nat)
    requires InputOk(input, vocab) && |coins| >= |input.tree.kids| && RowsFit(was.rows, input, vocab)
    requires |retriveIndex| == |input.tree.kids| == |now.acceptIndex| == |now.rows|
    requires forall v | 0 <= v < |retriveIndex| :: retriveIndex[v] < |now.predicts|
    requires Walked(input, vocab, coins, retriveIndex, path, was, now)
    requires var v := path[|path| - 1];
      && Accepted(input, vocab, coins, v).None? && Tried(input, vocab, coins, v) == |input.tree.kids[v]|
      && row == Rejected(input.target[v], was.rows[v], KidTokens(input, v), Tried(input, vocab, coins, v))
    ensures var v := path[|path| - 1];
      path == Path(input, vocab, coins, 0) &&
      Sampled(input, vocab, coins, retriveIndex, finalDraw, draws, path, was,
        AfterEmit(now, retriveIndex, v, |path| - 1, SampleFromProbs(Clamped(input.target[v], row), finalDraw, draws),
                  row))
  {
    hide TreeOk, KidTokens, Accepted, Visited, Path, Rejected, Rising, RowsTried, Tried, NodeOf, Written, Clamped,
         SampleFromProbs;
    var last := |path| - 1;
    var v := path[last];
    PathStep(input, vocab, coins, v);
    LastSplit(path);
    RowsStep(input, vocab, coins, path[..last], v, row, was.rows, now.rows);
    VisitBonus(input, retriveIndex, path, SampleFromProbs(Clamped(input.target[v], row), finalDraw, draws),
      now.predicts, was.predicts, now.acceptIndex, was.acceptIndex);
  }

  /** `tree_speculative_sampling_target_only` for one request: the path of the walk is emitted
      token by token, followed by one bonus token drawn from the residual of the last node. */
  method SampleTree(input: Input, vocab: nat, retriveIndex: seq<nat>, nextToken: seq<int>, nextSibling: seq<int>,
      coins: seq<nat>, finalDraw: nat, draws: nat, predicts: array<int>, acceptIndex: array<int>,
      draftProbs: array<seq<nat>>)
    returns (acceptTokenNum: nat)
    requires InputOk(input, vocab) && |coins| >= |input.tree.kids| && Links(input.tree, nextToken, nextSibling)
    requires RowsFit(draftProbs[..], input, vocab) && predicts != acceptIndex
    requires |retriveIndex| == |input.tree.kids| == acceptIndex.Length
    requires forall v | 0 <= v < |retriveIndex| :: retriveIndex[v] < predicts.Length
    requires Apart(retriveIndex)
    modifies predicts, acceptIndex, draftProbs
    ensures var path := Path(input, vocab, coins, 0);
      acceptTokenNum == |path| - 1 &&
      Written(input, retriveIndex, path,
              BonusToken(input, vocab, old(draftProbs[..]), path[|path| - 1], finalDraw, draws),
              predicts[..], old(predicts[..]), acceptIndex[..], old(acceptIndex[..]))
    ensures var path := Path(input, vocab, coins, 0);
      RowsTried(input, vocab, coins, path, old(draftProbs[..]), draftProbs[..])
  {
    hide InputOk, TreeOk, Links, KidTokens, Accepted, Path, Clamped, SampleFromProbs, Rejected, Apart, Tried, Walked,
         Written, BonusToken, RowsTried, RowsFit;
    InputSizes(input, vocab);
    ghost var was := Buffers(predicts[..], acceptIndex[..], draftProbs[..]);
    var current: nat, accepted: nat := 0, 0;
    var writePos := retriveIndex[current];
    ghost var path: seq<nat> := [0];
    StartWalk(input, vocab, coins, retriveIndex, was);
    while true
      invariant |path| == accepted + 1 <= current + 1 && path[accepted] == current < |input.tree.kids|
      invariant writePos == retriveIndex[current]
      invariant Walked(input, vocab, coins, retriveIndex, path, was,
                       Buffers(predicts[..], acceptIndex[..], draftProbs[..]))
      decreases |input.tree.kids| - current
    {
      ghost var now := Buffers(predicts[..], acceptIndex[..], draftProbs[..]);
      assert |now.rows| == |was.rows| && |now.acceptIndex| == |was.acceptIndex|;
      RowStands(input, vocab, coins, retriveIndex, path, was, now);
      var child;
      ghost var tried;
      child, tried := TryChildren(input, vocab, nextToken, nextSibling, coins, current, draftProbs);
      ghost var row := draftProbs[current];
      if child != -1 {
        WalkOn(input, vocab, coins, retriveIndex, path, was, now, row);
        Emit(predicts, acceptIndex, writePos, input.candidates[child], accepted);
        accepted := accepted + 1;
        current := child;
        writePos := retriveIndex[current];
        path := path + [child];
      } else {
        var bonus := DrawBonus(input.target[current], draftProbs[current], finalDraw, draws);
        WalkEnd(input, vocab, coins, retriveIndex, path, was, now, row, finalDraw, draws);
        Emit(predicts, acceptIndex, writePos, bonus, accepted);
        acceptTokenNum := accepted;
        return;
      }
    }
  }

  lemma StartWalk(input: Input, vocab: nat, coins: seq<nat>, retriveIndex: seq<nat>, was: Buffers)
    requires InputOk(input, vocab) && |coins| >= |input.tree.kids| && RowsFit(was.rows, input, vocab)
    requires |retriveIndex| > 0 && |was.acceptIndex| > 0 && retriveIndex[0] < |was.predicts|
    ensures Walked(input, vocab, coins, retriveIndex, [0], was, was)
  {
    hide Path, RowsTried, Visited, TreeOk;
    InputSizes(input, vocab);
    StartRows(input, vocab, coins, was.rows);
    StartVisit(input, retriveIndex, was.predicts, was.acceptIndex);
    var path: seq<nat> := [0];
    assert path[..0] + Path(input, vocab, coins, 0) == Path(input, vocab, coins, 0);
  }

  lemma RowStands(input: Input, vocab: nat, coins: seq<nat>, retriveIndex: seq<nat>, path: seq<nat>, was: Buffers,
      now: Buffers)
    requires InputOk(input, vocab) && |coins| >= |input.tree.kids| && RowsFit(was.rows, input, vocab)
    requires Walked(input, vocab, coins, retriveIndex, path, was, now) && |now.rows| == |was.rows|
    ensures path != [] && path[|path| - 1] < |now.rows| == |input.tree.kids|
    ensures var v := path[|path| - 1]; now.rows[v] == was.rows[v] && |now.rows[v]| == vocab
  {
  }

  /** One emitted token and its place. */
  method Emit(predicts: array<int>, acceptIndex: array<int>, writePos: nat, token: int, accepted: nat)
    requires writePos < predicts.Length && accepted < acceptIndex.Length && predicts != acceptIndex
    modifies predicts, acceptIndex
    ensures predicts[..] == old(predicts[..])[writePos := token]
    ensures acceptIndex[..] == old(acceptIndex[..])[accepted := writePos]
  {
    predicts[writePos] := token;
    acceptIndex[accepted] := writePos;
  }

  method DrawBonus(target: seq<nat>, draft: seq<nat>, finalDraw: nat, draws: nat) returns (bonus: nat)
    requires |draft| == |target| > 0
    ensures bonus == SampleFromProbs(Clamped(target, draft), finalDraw, draws)
  {
    var residual := Clamped(target, draft);
    bonus := SampleFromProbs(residual, finalDraw, draws);
  }

  /** The draw from what is left of the target row of `v` after all its children were rejected. */
  ghost function BonusToken(input: Input, vocab: nat, draft: seq<seq<nat>>, v: nat, finalDraw: nat, draws: nat): nat
    requires InputOk(input, vocab) && v < |input.tree.kids| && RowsFit(draft, input, vocab)
  {
    var left := Rejected(input.target[v], draft[v], KidTokens(input, v), |input.tree.kids[v]|);
    SampleFromProbs(Clamped(input.target[v], left), finalDraw, draws)
  }

  lemma InputSizes(input: Input, vocab: nat)
    requires InputOk(input, vocab)
    ensures |input.tree.kids| == |input.target| == |input.candidates| > 0 && vocab > 0
    ensures forall v | 0 <= v < |input.target| :: |input.target[v]| == vocab
  {
  }

  lemma PathStep(input: Input, vocab: nat, coins: seq<nat>, v: nat)
    requires InputOk(input, vocab) && |coins| >= |input.tree.kids| && v < |input.tree.kids|
    ensures Path(input, vocab, coins, v) == match Accepted(input, vocab, coins, v)
      case None => [v]
      case Some(c) => [v] + Path(input, vocab, coins, c)
  {
  }

  lemma LastSplit(path: seq<nat>)
    requires path != []
    ensures path[..|path| - 1] + [path[|path| - 1]] == path
  {
  }

  lemma Regroup(a: seq<nat>, x: nat, rest: seq<nat>)
    ensures a + ([x] + rest) == (a + [x]) + rest
  {
  }

  lemma StartRows(input: Input, vocab: nat, coins: seq<nat>, rows: seq<seq<nat>>)
    requires InputOk(input, vocab) && |coins| >= |input.tree.kids| && RowsFit(rows, input, vocab)
    ensures RowsTried(input, vocab, coins, [], rows, rows)
  {
  }

  lemma StartVisit(input: Input, retriveIndex: seq<nat>, predicts: seq<int>, acceptIndex: seq<int>)
    requires |retriveIndex| > 0 && |input.candidates| > 0 && |acceptIndex| > 0 && retriveIndex[0] < |predicts|
    ensures Rising([0])
    ensures Visited(input, retriveIndex, [0], predicts, predicts, acceptIndex, acceptIndex)
  {
  }
}
