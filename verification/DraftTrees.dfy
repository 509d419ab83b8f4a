/** Building the draft tree of spec_sample.py for one request: bank indices are mapped to local
    slots, children are linked in bank order, and the ancestor mask is filled and packed. */
module DraftTrees {
  import opened SpeculativeSampling

  datatype Error = NonPositiveTopk | NonPositiveSteps | LengthMismatch | DuplicateBank | SlotOutOfRange | MissingParent
  datatype Result<T> = Ok(value: T) | Err(error: Error)

  // ---------- Banks, parents and depths ----------

  predicate DistinctBanks(bank: seq<int>) {
    forall i, j | 0 <= i < j < |bank| :: bank[i] != bank[j]
  }

  /** `m` maps every bank index to its slot. */
  predicate MapsBanks(m: map<int, nat>, bank: seq<int>) {
    && (forall i | 0 <= i < |bank| :: bank[i] in m && m[bank[i]] == i)
    && (forall b | b in m :: m[b] < |bank| && bank[m[b]] == b)
  }

  /** `bank_to_local`: fails exactly on a repeated bank index. */
  method MapBanks(bank: seq<int>) returns (r: Result<map<int, nat>>)
    requires |bank| > 0 && bank[0] == 0
    ensures r.Ok? <==> DistinctBanks(bank)
    ensures r.Ok? ==> MapsBanks(r.value, bank)
    ensures r.Err? ==> r.error == DuplicateBank
  {
    var bankToLocal: map<int, nat> := map[0 := 0];
    for local := 1 to |bank|
      invariant MapsBanks(bankToLocal, bank[..local]) && DistinctBanks(bank[..local])
    {
      var bankIdx := bank[local];
      if bankIdx in bankToLocal {
        assert bank[bankToLocal[bankIdx]] == bank[local];
        return Err(DuplicateBank);
      }
      bankToLocal := bankToLocal[bankIdx := local];
      assert bank[..local + 1] == bank[..local] + [bankIdx];
    }
    assert bank[..|bank|] == bank;
    r := Ok(bankToLocal);
  }

  /** The parent slot of a selected node, or why there is none. */
  function ParentOf(bankIdx: int, parentList: seq<int>, topk: int, m: map<int, nat>): Result<nat>
    requires topk > 0
  {
    var slot := bankIdx / topk;
    if slot < 0 || slot >= |parentList| then Err(SlotOutOfRange)
    else if parentList[slot] !in m then Err(MissingParent)
    else Ok(m[parentList[slot]])
  }

  /** Slots below `k` whose parent is `p`, in slot order. */
  function SlotsUnder(parent: seq<int>, p: int, k: nat): (r: seq<nat>)
    requires k <= |parent|
    ensures forall j | 0 <= j < |r| :: 0 < r[j] < k && parent[r[j]] == p
    ensures forall i, j | 0 <= i < j < |r| :: r[i] < r[j]
    ensures forall v | 0 < v < k && parent[v] == p :: v in r
  {
    if k <= 1 then []
    else if parent[k - 1] == p then SlotsUnder(parent, p, k - 1) + [k - 1]
    else SlotsUnder(parent, p, k - 1)
  }

  lemma {:induction false} SlotsUnderStable(parent: seq<int>, parent': seq<int>, p: int, k: nat)
    requires k <= |parent| && k <= |parent'| && forall v | 0 < v < k :: parent'[v] == parent[v]
    ensures SlotsUnder(parent', p, k) == SlotsUnder(parent, p, k)
  {
    if k > 1 {
      SlotsUnderStable(parent, parent', p, k - 1);
    }
  }

  /** What the single pass over the slots leaves in the depth buffer: a parent that comes later
      still holds its initial zero. */
  function DepthPass(parent: seq<int>, v: nat): nat
    requires v < |parent|
  {
    if v == 0 then 0
    else (if 0 <= parent[v] < v then DepthPass(parent, parent[v]) else 0) + 1
  }

  lemma {:induction false} DepthPassStable(parent: seq<int>, parent': seq<int>, v: nat)
    requires v < |parent| && v < |parent'| && forall u | 0 < u <= v :: parent'[u] == parent[u]
    ensures DepthPass(parent', v) == DepthPass(parent, v)
  {
    if v > 0 && 0 <= parent[v] < v {
      DepthPassStable(parent, parent', parent[v]);
    }
  }

  datatype Linked = Linked(parent: seq<int>, depth: seq<nat>, children: seq<seq<nat>>)

  /** The first loop over the selected nodes. */
  ghost predicate LinkedOk(l: Linked, bank: seq<int>, parentList: seq<int>, topk: int, m: map<int, nat>, k: nat)
    requires topk > 0
  {
    && |l.parent| == |l.depth| == |l.children| == |bank| && 0 < k <= |bank| && l.parent[0] == -1
    && (forall v | 0 < v < k :: ParentOf(bank[v], parentList, topk, m) == Ok(l.parent[v]))
    && (forall v | 0 <= v < k :: l.depth[v] == DepthPass(l.parent, v))
    && (forall v | k <= v < |bank| :: l.depth[v] == 0)
    && (forall p | 0 <= p < |bank| :: l.children[p] == SlotsUnder(l.parent, p, k))
  }

  method LinkParents(bank: seq<int>, parentList: seq<int>, topk: int, bankToLocal: map<int, nat>)
    returns (r: Result<Linked>)
    requires topk > 0 && |bank| > 0 && bank[0] == 0 && MapsBanks(bankToLocal, bank)
    ensures r.Ok? <==> forall v | 0 < v < |bank| :: ParentOf(bank[v], parentList, topk, bankToLocal).Ok?
    ensures r.Ok? ==> LinkedOk(r.value, bank, parentList, topk, bankToLocal, |bank|)
    ensures r.Err? ==> exists v :: 0 < v < |bank| && ParentOf(bank[v], parentList, topk, bankToLocal) == Err(r.error)
  {
    var n := |bank|;
    var l := Linked(seq(n, _ => -1), seq(n, _ => 0), seq(n, _ => []));
    for local := 1 to n
      invariant LinkedOk(l, bank, parentList, topk, bankToLocal, local)
    {
      var p := ParentOf(bank[local], parentList, topk, bankToLocal);
      if p.Err? {
        return Err(p.error);
      }
      var parent := p.value;
      ghost var before := l;
      ParentInRange(bank, parentList, topk, bankToLocal, local);
      l := Linked(l.parent[local := parent], l.depth[local := l.depth[parent] + 1],
                  l.children[parent := l.children[parent] + [local]]);
      LinkStep(before, l, bank, parentList, topk, bankToLocal, local, parent);
    }
    r := Ok(l);
  }

  lemma ParentInRange(bank: seq<int>, parentList: seq<int>, topk: int, m: map<int, nat>, v: nat)
    requires topk > 0 && MapsBanks(m, bank) && v < |bank| && ParentOf(bank[v], parentList, topk, m).Ok?
    ensures ParentOf(bank[v], parentList, topk, m).value < |bank|
  {
    var b := parentList[bank[v] / topk];
    assert b in m;
  }

  lemma LinkStep(l: Linked, l': Linked, bank: seq<int>, parentList: seq<int>, topk: int, m: map<int, nat>, v: nat,
      p: nat)
    requires topk > 0 && LinkedOk(l, bank, parentList, topk, m, v) && v < |bank| && p < |bank|
    requires ParentOf(bank[v], parentList, topk, m) == Ok(p)
    requires l' == Linked(l.parent[v := p], l.depth[v := l.depth[p] + 1], l.children[p := l.children[p] + [v]])
    ensures LinkedOk(l', bank, parentList, topk, m, v + 1)
  {
    forall q | 0 <= q < |bank|
      ensures l'.children[q] == SlotsUnder(l'.parent, q, v + 1)
    {
      SlotsUnderStable(l.parent, l'.parent, q, v);
    }
    forall u | 0 <= u < v
      ensures DepthPass(l'.parent, u) == l.depth[u]
    {
      DepthPassStable(l.parent, l'.parent, u);
    }
  }

  // ---------- Sibling order ----------

  /** `children[parent].sort(key=bank)`. */
  function InsertByBank(c: nat, sorted: seq<nat>, bank: seq<int>): (r: seq<nat>)
    requires c < |bank| && (forall j | 0 <= j < |sorted| :: sorted[j] < |bank|)
    ensures |r| == |sorted| + 1 && forall v :: v in r <==> v == c || v in sorted
    ensures forall j | 0 <= j < |r| :: r[j] < |bank|
  {
    if sorted == [] then [c]
    else if bank[c] <= bank[sorted[0]] then [c] + sorted
    else
      assert sorted == [sorted[0]] + sorted[1..];
      [sorted[0]] + InsertByBank(c, sorted[1..], bank)
  }

  function SortByBank(slots: seq<nat>, bank: seq<int>): (r: seq<nat>)
    requires forall j | 0 <= j < |slots| :: slots[j] < |bank|
    ensures |r| == |slots| && forall v :: v in r <==> v in slots
    ensures forall j | 0 <= j < |r| :: r[j] < |bank|
  {
    if slots == [] then []
    else
      assert slots == [slots[0]] + slots[1..];
      InsertByBank(slots[0], SortByBank(slots[1..], bank), bank)
  }

  predicate InBankOrder(slots: seq<nat>, bank: seq<int>) {
    && (forall j | 0 <= j < |slots| :: slots[j] < |bank|)
    && forall i, j | 0 <= i < j < |slots| :: bank[slots[i]] <= bank[slots[j]]
  }

  lemma {:induction false} InsertKeepsOrder(c: nat, sorted: seq<nat>, bank: seq<int>)
    requires c < |bank| && InBankOrder(sorted, bank)
    ensures InBankOrder(InsertByBank(c, sorted, bank), bank)
  {
    if sorted != [] && bank[c] > bank[sorted[0]] {
      InsertKeepsOrder(c, sorted[1..], bank);
      var rest := InsertByBank(c, sorted[1..], bank);
      forall j | 0 <= j < |rest|
        ensures bank[sorted[0]] <= bank[rest[j]]
      {
        assert rest[j] in rest;
      }
    }
  }

  lemma {:induction false} SortIsOrdered(slots: seq<nat>, bank: seq<int>)
    requires forall j | 0 <= j < |slots| :: slots[j] < |bank|
    ensures InBankOrder(SortByBank(slots, bank), bank)
  {
    if slots != [] {
      SortIsOrdered(slots[1..], bank);
      InsertKeepsOrder(slots[0], SortByBank(slots[1..], bank), bank);
    }
  }

  // ---------- Child and sibling links ----------

  predicate NoRepeats(slots: seq<nat>) {
    forall i, j | 0 <= i < j < |slots| :: slots[i] != slots[j]
  }

  lemma {:induction false} InsertNoRepeats(c: nat, sorted: seq<nat>, bank: seq<int>)
    requires c < |bank| && (forall j | 0 <= j < |sorted| :: sorted[j] < |bank|) && NoRepeats(sorted) && c !in sorted
    ensures NoRepeats(InsertByBank(c, sorted, bank))
  {
    if sorted != [] && bank[c] > bank[sorted[0]] {
      InsertNoRepeats(c, sorted[1..], bank);
      var rest := InsertByBank(c, sorted[1..], bank);
      assert sorted[0] !in sorted[1..];
      assert forall j | 0 <= j < |rest| :: rest[j] in rest;
    }
  }

  lemma {:induction false} SortNoRepeats(slots: seq<nat>, bank: seq<int>)
    requires (forall j | 0 <= j < |slots| :: slots[j] < |bank|) && NoRepeats(slots)
    ensures NoRepeats(SortByBank(slots, bank))
  {
    if slots != [] {
      SortNoRepeats(slots[1..], bank);
      assert slots[0] !in slots[1..];
      InsertNoRepeats(slots[0], SortByBank(slots[1..], bank), bank);
    }
  }

  function IndexOf(slots: seq<nat>, v: nat): (r: nat)
    ensures v in slots ==> r < |slots| && slots[r] == v
  {
    if slots == [] then 0 else if slots[0] == v then 0 else IndexOf(slots[1..], v) + 1
  }

  /** The children of slot `p` in bank order. */
  ghost function Kids(parent: seq<int>, bank: seq<int>, p: nat): (r: seq<nat>)
    requires |parent| == |bank|
    ensures forall j | 0 <= j < |r| :: r[j] < |bank|
  {
    SortByBank(SlotsUnder(parent, p, |parent|), bank)
  }

  ghost function PlaceOf(parent: seq<int>, bank: seq<int>, v: nat): nat
    requires |parent| == |bank| && v < |parent|
  {
    if parent[v] < 0 then 0 else IndexOf(Kids(parent, bank, parent[v]), v)
  }

  ghost function TreeOf(parent: seq<int>, bank: seq<int>): (t: Tree)
    requires |parent| == |bank|
    ensures |t.kids| == |t.parent| == |t.place| == |bank| && t.parent == parent
    ensures forall p | 0 <= p < |bank| :: t.kids[p] == Kids(parent, bank, p)
    ensures forall v | 0 <= v < |bank| :: t.place[v] == PlaceOf(parent, bank, v)
  {
    Tree(seq(|bank|, p requires 0 <= p < |bank| => Kids(parent, bank, p)), parent,
         seq(|bank|, v requires 0 <= v < |bank| => PlaceOf(parent, bank, v)))
  }

  predicate ParentsPrecede(parent: seq<int>) {
    forall v | 0 < v < |parent| :: 0 <= parent[v] < v
  }

  lemma KidsFacts(parent: seq<int>, bank: seq<int>, p: nat)
    requires |parent| == |bank|
    ensures NoRepeats(Kids(parent, bank, p)) && InBankOrder(Kids(parent, bank, p), bank)
    ensures forall v :: v in Kids(parent, bank, p) <==> 0 < v < |parent| && parent[v] == p
  {
    var under := SlotsUnder(parent, p, |parent|);
    SortNoRepeats(under, bank);
    SortIsOrdered(under, bank);
  }

  /** Every node but the root has a parent among the slots. */
  predicate HasParents(parent: seq<int>) {
    |parent| > 0 && parent[0] == -1 && forall v | 0 < v < |parent| :: 0 <= parent[v] < |parent|
  }

  /** The children lists list every node under its parent exactly once, at its place. */
  ghost predicate Places(t: Tree) {
    && |t.kids| == |t.parent| == |t.place|
    && (forall v {:trigger t.parent[v]} | 0 < v < |t.kids| ::
          && 0 <= t.parent[v] < |t.kids| && t.place[v] < |t.kids[t.parent[v]]| && t.kids[t.parent[v]][t.place[v]] == v)
    && (forall p, j {:trigger t.kids[p][j]} | 0 <= p < |t.kids| && 0 <= j < |t.kids[p]| ::
          0 < t.kids[p][j] < |t.kids| && t.parent[t.kids[p][j]] == p && t.place[t.kids[p][j]] == j)
  }

  lemma TreeOfPlaces(parent: seq<int>, bank: seq<int>)
    requires |parent| == |bank| && HasParents(parent)
    ensures Places(TreeOf(parent, bank))
  {
    hide Kids, IndexOf, SlotsUnder, SortByBank;
    var t := TreeOf(parent, bank);
    forall v {:trigger t.parent[v]} | 0 < v < |t.kids|
      ensures 0 <= t.parent[v] < |t.kids| && t.place[v] < |t.kids[t.parent[v]]| && t.kids[t.parent[v]][t.place[v]] == v
    {
      KidsFacts(parent, bank, parent[v]);
    }
    forall p, j {:trigger t.kids[p][j]} | 0 <= p < |t.kids| && 0 <= j < |t.kids[p]|
      ensures 0 < t.kids[p][j] < |t.kids| && t.parent[t.kids[p][j]] == p && t.place[t.kids[p][j]] == j
    {
      KidsFacts(parent, bank, p);
      assert t.kids[p][j] in Kids(parent, bank, p);
    }
  }

  /** When parents precede children the result is a tree as the sampling walk needs it. */
  lemma TreeOfOk(parent: seq<int>, bank: seq<int>)
    requires |parent| == |bank| && HasParents(parent) && ParentsPrecede(parent)
    ensures TreeOk(TreeOf(parent, bank))
  {
    hide TreeOf;
    TreeOfPlaces(parent, bank);
    TreeOfParent(parent, bank);
  }

  lemma TreeOfParent(parent: seq<int>, bank: seq<int>)
    requires |parent| == |bank|
    ensures TreeOf(parent, bank).parent == parent && |TreeOf(parent, bank).kids| == |parent|
  {
  }

  /** What `retrive_next_sibling` should hold. */
  ghost function SiblingOf(t: Tree, v: nat): int
    requires Places(t) && v < |t.kids|
  {
    if v == 0 then -1 else KidAt(t, t.parent[v], t.place[v] + 1)
  }

  /** Siblings are linked for the children of the slots below `p`, and for the first `j` children
      of `p`. */
  ghost predicate LinkedUpTo(t: Tree, nextSibling: seq<int>, p: nat, j: nat)
    requires Places(t)
  {
    && |nextSibling| == |t.kids|
    && forall v | 0 <= v < |nextSibling| ::
         nextSibling[v] == if v > 0 && (t.parent[v] < p || (t.parent[v] == p && t.place[v] < j)) then SiblingOf(t, v)
             else -1
  }

  /** The inner loop over the ordered children of one parent. */
  method LinkChain(ghost t: Tree, nextSibling0: seq<int>, p: nat, ordered: seq<nat>) returns (nextSibling: seq<int>)
    requires Places(t) && p < |t.kids| && ordered == t.kids[p] && LinkedUpTo(t, nextSibling0, p, 0)
    ensures LinkedUpTo(t, nextSibling, p + 1, 0)
  {
    nextSibling := nextSibling0;
    var idx := 0;
    while idx + 1 < |ordered|
      invariant (idx < |ordered| || idx == 0) && LinkedUpTo(t, nextSibling, p, idx)
    {
      nextSibling := nextSibling[ordered[idx] := ordered[idx + 1]];
      ChainStep(t, p, idx);
      idx := idx + 1;
    }
    ChainEnd(t, nextSibling, p, idx);
  }

  lemma ChainStep(t: Tree, p: nat, j: nat)
    requires Places(t) && p < |t.kids| && j + 1 < |t.kids[p]|
    ensures 0 < t.kids[p][j] < |t.kids| && SiblingOf(t, t.kids[p][j]) == t.kids[p][j + 1]
    ensures t.parent[t.kids[p][j]] == p && t.place[t.kids[p][j]] == j
    ensures forall v | 0 < v < |t.kids| && t.parent[v] == p && t.place[v] == j :: v == t.kids[p][j]
  {
  }

  /** The last child has no next sibling. */
  lemma ChainEnd(t: Tree, nextSibling: seq<int>, p: nat, j: nat)
    requires Places(t) && p < |t.kids| && j + 1 >= |t.kids[p]| && LinkedUpTo(t, nextSibling, p, j)
    ensures LinkedUpTo(t, nextSibling, p + 1, 0)
  {
    forall v | 0 < v < |t.kids| && t.parent[v] == p && t.place[v] >= j
      ensures SiblingOf(t, v) == -1
    {
    }
  }

  /** The loop over parents: first child and next sibling spell out the children in bank order. */
  method LinkSiblings(bank: seq<int>, parent: seq<int>, children: seq<seq<nat>>)
    returns (nextToken: seq<int>, nextSibling: seq<int>)
    requires |parent| == |bank| == |children| && HasParents(parent)
    requires forall p | 0 <= p < |bank| :: children[p] == SlotsUnder(parent, p, |bank|)
    ensures Links(TreeOf(parent, bank), nextToken, nextSibling)
  {
    hide TreeOf, Places, LinkedUpTo, SlotsUnder, SortByBank, HasParents, Links;
    ghost var t := TreeOf(parent, bank);
    TreeOfPlaces(parent, bank);
    TreeOfParent(parent, bank);
    var n := |bank|;
    nextToken, nextSibling := seq(n, _ => -1), seq(n, _ => -1);
    NothingLinked(t, nextSibling);
    for p := 0 to n
      invariant |nextToken| == n && LinkedUpTo(t, nextSibling, p, 0)
      invariant forall q | 0 <= q < n :: nextToken[q] == if q < p then KidAt(t, q, 0) else -1
    {
      var ordered := SortByBank(children[p], bank);
      KidsOf(parent, bank, p);
      if |children[p]| > 0 {
        nextToken := nextToken[p := ordered[0]];
        nextSibling := LinkChain(t, nextSibling, p, ordered);
      } else {
        ChainEnd(t, nextSibling, p, 0);
      }
    }
    AllLinked(t, nextToken, nextSibling);
  }

  lemma KidsOf(parent: seq<int>, bank: seq<int>, p: nat)
    requires |parent| == |bank| && p < |bank|
    ensures TreeOf(parent, bank).kids[p] == SortByBank(SlotsUnder(parent, p, |bank|), bank)
  {
  }

  lemma NothingLinked(t: Tree, nextSibling: seq<int>)
    requires Places(t) && |nextSibling| == |t.kids| && forall v | 0 <= v < |nextSibling| :: nextSibling[v] == -1
    ensures LinkedUpTo(t, nextSibling, 0, 0)
  {
  }

  lemma AllLinked(t: Tree, nextToken: seq<int>, nextSibling: seq<int>)
    requires Places(t) && LinkedUpTo(t, nextSibling, |t.kids|, 0)
    requires |nextToken| == |t.kids| && forall q | 0 <= q < |t.kids| :: nextToken[q] == KidAt(t, q, 0)
    ensures Links(t, nextToken, nextSibling)
  {
  }

  // ---------- Ancestors ----------

  /** Following parents never comes back: `rank` decreases on the way to the root. */
  ghost predicate Acyclic(parent: seq<int>, rank: seq<nat>) {
    && |rank| == |parent|
    && forall v | 0 <= v < |parent| && parent[v] >= 0 :: parent[v] < |parent| && rank[parent[v]] < rank[v]
  }

  ghost predicate AncestorOrSelf(parent: seq<int>, rank: seq<nat>, v: nat, a: nat)
    requires Acyclic(parent, rank) && v < |parent|
    decreases rank[v]
  {
    a == v || (parent[v] >= 0 && AncestorOrSelf(parent, rank, parent[v], a))
  }

  ghost function TrueDepth(parent: seq<int>, rank: seq<nat>, v: nat): nat
    requires Acyclic(parent, rank) && v < |parent|
    decreases rank[v]
  {
    if parent[v] < 0 then 0 else TrueDepth(parent, rank, parent[v]) + 1
  }

  /** `_build_tree_mask_from_parent`: row `v` marks exactly `v` and its ancestors. */
  method BuildMask(parent: seq<int>, ghost rank: seq<nat>) returns (mask: array2<bool>)
    requires Acyclic(parent, rank)
    ensures fresh(mask) && mask.Length0 == mask.Length1 == |parent|
    ensures forall v, a | 0 <= v < |parent| && 0 <= a < |parent| :: mask[v, a] <==> AncestorOrSelf(parent, rank, v, a)
  {
    var n := |parent|;
    mask := new bool[n, n]((_, _) => false);
    for node := 0 to n
      invariant forall v, a | 0 <= v < node && 0 <= a < n :: mask[v, a] <==> AncestorOrSelf(parent, rank, v, a)
      invariant forall v, a | node <= v < n && 0 <= a < n :: !mask[v, a]
    {
      var cur: int := node;
      while cur >= 0
        invariant -1 <= cur < n || cur < 0
        invariant forall v, a | 0 <= v < node && 0 <= a < n :: mask[v, a] <==> AncestorOrSelf(parent, rank, v, a)
        invariant forall v, a | node < v < n && 0 <= a < n :: !mask[v, a]
        invariant forall a | 0 <= a < n ::
          AncestorOrSelf(parent, rank, node, a) <==> mask[node, a] || (cur >= 0 && AncestorOrSelf(parent, rank, cur, a))
        decreases if cur >= 0 then rank[cur] + 1 else 0
      {
        mask[node, cur] := true;
        cur := parent[cur];
      }
    }
  }

  ghost function Ancestors(parent: seq<int>, rank: seq<nat>, v: nat): set<nat>
    requires Acyclic(parent, rank) && v < |parent|
  {
    set a: nat | a < |parent| && AncestorOrSelf(parent, rank, v, a)
  }

  lemma {:induction false} AncestorRank(parent: seq<int>, rank: seq<nat>, v: nat, a: nat)
    requires Acyclic(parent, rank) && v < |parent| && AncestorOrSelf(parent, rank, v, a)
    ensures a < |parent| && rank[a] <= rank[v]
    decreases rank[v]
  {
    if a != v {
      AncestorRank(parent, rank, parent[v], a);
    }
  }

  /** The depth of a node is the number of marks in its mask row, minus one. */
  lemma {:induction false} DepthIsPopcount(parent: seq<int>, rank: seq<nat>, v: nat)
    requires Acyclic(parent, rank) && v < |parent|
    ensures |Ancestors(parent, rank, v)| == TrueDepth(parent, rank, v) + 1
    decreases rank[v]
  {
    if parent[v] < 0 {
      assert Ancestors(parent, rank, v) == {v};
    } else {
      var p: nat := parent[v];
      DepthIsPopcount(parent, rank, p);
      if v in Ancestors(parent, rank, p) {
        AncestorRank(parent, rank, p, v);
      }
      assert Ancestors(parent, rank, v) == Ancestors(parent, rank, p) + {v};
    }
  }

  lemma {:induction false} DepthRight(parent: seq<int>, rank: seq<nat>, v: nat)
    requires Acyclic(parent, rank) && HasParents(parent) && ParentsPrecede(parent) && v < |parent|
    ensures DepthPass(parent, v) == TrueDepth(parent, rank, v)
    decreases v
  {
    if v > 0 {
      DepthRight(parent, rank, parent[v]);
    }
  }

  /** The single pass computes all depths right exactly when every parent comes before its
      children: a parent that comes later is read while its depth is still zero. */
  lemma DepthExact(parent: seq<int>, rank: seq<nat>)
    requires Acyclic(parent, rank) && HasParents(parent)
    ensures (forall v | 0 <= v < |parent| :: DepthPass(parent, v) == TrueDepth(parent, rank, v)) <==>
        ParentsPrecede(parent)
  {
    if ParentsPrecede(parent) {
      forall v | 0 <= v < |parent|
        ensures DepthPass(parent, v) == TrueDepth(parent, rank, v)
      {
        DepthRight(parent, rank, v);
      }
    } else {
      var v :| 0 < v < |parent| && !(0 <= parent[v] < v);
      assert parent[v] > v && parent[parent[v]] >= 0;
      assert DepthPass(parent, v) == 1 && TrueDepth(parent, rank, v) >= 2;
    }
  }

  /** `arange(n)`. */
  function Order(n: nat): (r: seq<nat>)
    ensures |r| == n && forall i | 0 <= i < n :: r[i] == i
  {
    if n == 0 then [] else Order(n - 1) + [n - 1]
  }

  // ---------- Bit packing ----------

  function Pow2(k: nat): nat {
    if k == 0 then 1 else 2 * Pow2(k - 1)
  }

  function Bit(b: bool): nat {
    if b then 1 else 0
  }

  /** `sum(mask_u8 << arange(8))` over the first `k` lanes. */
  function ByteSum(bits: seq<bool>, k: nat): nat
    requires k <= |bits|
  {
    if k == 0 then 0 else ByteSum(bits, k - 1) + Bit(bits[k - 1]) * Pow2(k - 1)
  }

  /** Bit `k` of a byte. */
  function BitOf(v: nat, k: nat): bool {
    if k == 0 then v % 2 == 1 else BitOf(v / 2, k - 1)
  }

  lemma {:induction false} SumFromLow(bits: seq<bool>, k: nat)
    requires 0 < k <= |bits|
    ensures ByteSum(bits, k) == Bit(bits[0]) + 2 * ByteSum(bits[1..], k - 1)
  {
    if k > 1 {
      SumFromLow(bits, k - 1);
      assert bits[1..][k - 2] == bits[k - 1];
    }
  }

  lemma {:induction false} ByteBit(bits: seq<bool>, k: nat)
    requires k < |bits|
    ensures BitOf(ByteSum(bits, |bits|), k) == bits[k]
    decreases k
  {
    SumFromLow(bits, |bits|);
    if k > 0 {
      ByteBit(bits[1..], k - 1);
    }
  }

  lemma {:induction false} ByteFits(bits: seq<bool>, k: nat)
    requires k <= |bits|
    ensures ByteSum(bits, k) < Pow2(k)
  {
    if k > 0 {
      ByteFits(bits, k - 1);
    }
  }

  /** Eight lanes, padded with false. */
  function Lanes(bits: seq<bool>): (r: seq<bool>)
    ensures |r| == 8
  {
    seq(8, k => 0 <= k < |bits| && bits[k])
  }

  /** `_pack_mask_bits` of one mask row. */
  function PackRow(bits: seq<bool>): (bytes: seq<nat>)
    decreases |bits|
  {
    if bits == [] then []
    else [ByteSum(Lanes(bits), 8)] + PackRow(if |bits| <= 8 then [] else bits[8..])
  }

  function Unpack(bytes: seq<nat>, n: nat): (bits: seq<bool>)
    requires n <= 8 * |bytes|
    ensures |bits| == n
  {
    if n == 0 then []
    else
      var m := if n <= 8 then n else 8;
      seq(m, k requires 0 <= k < m => BitOf(bytes[0], k)) + Unpack(bytes[1..], n - m)
  }

  /** Packing loses nothing, and every packed value is a byte. */
  lemma {:induction false} PackRoundTrip(bits: seq<bool>)
    ensures |bits| <= 8 * |PackRow(bits)| < |bits| + 8 && Unpack(PackRow(bits), |bits|) == bits
    ensures forall i | 0 <= i < |PackRow(bits)| :: PackRow(bits)[i] < 256
    decreases |bits|
  {
    hide ByteSum, Lanes, BitOf, Pow2;
    if bits != [] {
      var m, rest := if |bits| <= 8 then |bits| else 8, if |bits| <= 8 then [] else bits[8..];
      PackRoundTrip(rest);
      var byte := ByteSum(Lanes(bits), 8);
      FirstByte(bits);
      assert PackRow(bits) == [byte] + PackRow(rest);
      var head := seq(m, k requires 0 <= k < m => BitOf(byte, k));
      assert head == bits[..m];
      assert PackRow(bits)[1..] == PackRow(rest);
      assert Unpack(PackRow(bits), |bits|) == head + Unpack(PackRow(rest), |bits| - m);
      assert bits == bits[..m] + rest;
    }
  }

  lemma FirstByte(bits: seq<bool>)
    ensures ByteSum(Lanes(bits), 8) < 256
    ensures forall k: nat | k < 8 :: BitOf(ByteSum(Lanes(bits), 8), k) == (k < |bits| && bits[k])
  {
    var lanes := Lanes(bits);
    ByteFits(lanes, 8);
    assert Pow2(8) == 256;
    forall k: nat | k < 8
      ensures BitOf(ByteSum(lanes, 8), k) == (k < |bits| && bits[k])
    {
      ByteBit(lanes, k);
    }
  }

  /** Bit `j % 8` of byte `j / 8` is entry `j` of the row, and the bits past the row are zero. */
  lemma {:induction false} PackedBit(bits: seq<bool>, j: nat)
    requires j < 8 * |PackRow(bits)|
    ensures BitOf(PackRow(bits)[j / 8], j % 8) == (j < |bits| && bits[j])
    decreases |bits|
  {
    hide ByteSum, Lanes, BitOf, Pow2;
    var rest := if |bits| <= 8 then [] else bits[8..];
    assert PackRow(bits) == [ByteSum(Lanes(bits), 8)] + PackRow(rest);
    if j < 8 {
      FirstByte(bits);
    } else {
      assert PackRow(bits)[j / 8] == PackRow(rest)[j / 8 - 1];
      PackedBit(rest, j - 8);
    }
  }

  // ---------- The builder ----------

  datatype DraftTree = DraftTree(draftTokens: seq<int>, packedMask: seq<seq<nat>>, positions: seq<int>,
      retriveIndex: seq<nat>, nextToken: seq<int>, nextSibling: seq<int>, parentLocal: seq<int>, depth: seq<nat>)

  method PackMask(mask: array2<bool>) returns (packed: seq<seq<nat>>)
    requires mask.Length0 == mask.Length1
    ensures |packed| == mask.Length0
    ensures forall v | 0 <= v < mask.Length0 :: packed[v] == PackRow(MaskRow(mask, v))
  {
    packed := [];
    for v := 0 to mask.Length0
      invariant |packed| == v && forall u | 0 <= u < v :: packed[u] == PackRow(MaskRow(mask, u))
    {
      packed := packed + [PackRow(MaskRow(mask, v))];
    }
  }

  function MaskRow(mask: array2<bool>, v: nat): (r: seq<bool>)
    requires v < mask.Length0
    reads mask
    ensures |r| == mask.Length1 && forall a | 0 <= a < |r| :: r[a] == mask[v, a]
  {
    seq(mask.Length1, a requires 0 <= a < mask.Length1 reads mask => mask[v, a])
  }

  /** What the result promises about parents, links, depths, mask and positions.  The depths are
      those of the single pass; `DepthExact` says when they are right. */
  ghost predicate Describes(d: DraftTree, verifiedId: int, draftTokens: seq<int>, bank: seq<int>,
      parentList: seq<int>, topk: int, seqLen: int, rank: seq<nat>)
    requires topk > 0
  {
    var n := |bank|;
    && |d.parentLocal| == |d.depth| == |d.positions| == |d.packedMask| == n
         && d.draftTokens == [verifiedId] + draftTokens
    && HasParents(d.parentLocal) && Acyclic(d.parentLocal, rank)
    && (forall v | 0 < v < n ::
          var slot := bank[v] / topk;
          0 <= slot < |parentList| && bank[d.parentLocal[v]] == parentList[slot])
    && Links(TreeOf(d.parentLocal, bank), d.nextToken, d.nextSibling)
    && d.retriveIndex == Order(n)
    && (forall v | 0 <= v < n ::
         d.depth[v] == DepthPass(d.parentLocal, v) && d.positions[v] == seqLen - 1 + d.depth[v])
    && (forall v | 0 <= v < n :: n <= 8 * |d.packedMask[v]|
          && forall a: nat | a < n :: Unpack(d.packedMask[v], n)[a] <==> AncestorOrSelf(d.parentLocal, rank, v, a))
  }

  /** Every selected node's parent is selected too, at an in-range parent slot. */
  ghost predicate PrefixClosed(bank: seq<int>, parentList: seq<int>, topk: int)
    requires topk > 0
  {
    forall v | 0 < v < |bank| :: var slot := bank[v] / topk; 0 <= slot < |parentList| && parentList[slot] in bank
  }

  /** A selected parent stands before its children. */
  ghost predicate ParentsFirst(bank: seq<int>, parentList: seq<int>, topk: int)
    requires topk > 0
  {
    forall u, v | 0 < v < |bank| && 0 <= u < |bank| && 0 <= bank[v] / topk < |parentList|
        && bank[u] == parentList[bank[v] / topk] :: u < v
  }

  /** Going from a selected node to its parent never comes back: else the mask loop of the builder
      does not end. */
  ghost predicate ParentsRanked(bank: seq<int>, parentList: seq<int>, topk: int, rank: seq<nat>)
    requires topk > 0
  {
    && |rank| == |bank|
    && forall u, v | 0 < v < |bank| && 0 <= u < |bank| && 0 <= bank[v] / topk < |parentList|
        && bank[u] == parentList[bank[v] / topk] :: rank[u] < rank[v]
  }

  /** Parents first is one such order. */
  lemma FirstIsRanked(bank: seq<int>, parentList: seq<int>, topk: int)
    requires topk > 0 && ParentsFirst(bank, parentList, topk)
    ensures ParentsRanked(bank, parentList, topk, Order(|bank|))
  {
  }

  lemma ParentOfOk(bank: seq<int>, parentList: seq<int>, topk: int, m: map<int, nat>)
    requires topk > 0 && MapsBanks(m, bank)
    ensures PrefixClosed(bank, parentList, topk) <==> forall v | 0 < v < |bank| ::
        ParentOf(bank[v], parentList, topk, m).Ok?
  {
    forall b
      ensures b in m <==> b in bank
    {
      assert b in m ==> bank[m[b]] == b;
    }
    forall v | 0 < v < |bank|
      ensures ParentOf(bank[v], parentList, topk, m).Ok? <==>
        var slot := bank[v] / topk; 0 <= slot < |parentList| && parentList[slot] in bank
    {
    }
  }

  lemma LinkedParents(l: Linked, bank: seq<int>, parentList: seq<int>, topk: int, m: map<int, nat>, rank: seq<nat>)
    requires topk > 0 && MapsBanks(m, bank) && |bank| > 0 && LinkedOk(l, bank, parentList, topk, m, |bank|)
    requires ParentsRanked(bank, parentList, topk, rank)
    ensures HasParents(l.parent) && Acyclic(l.parent, rank)
    ensures forall v | 0 < v < |bank| ::
        var slot := bank[v] / topk; 0 <= slot < |parentList| && bank[l.parent[v]] == parentList[slot]
  {
    forall v | 0 < v < |bank|
      ensures 0 <= l.parent[v] < |bank| && rank[l.parent[v]] < rank[v]
      ensures var slot := bank[v] / topk; 0 <= slot < |parentList| && bank[l.parent[v]] == parentList[slot]
    {
      assert ParentOf(bank[v], parentList, topk, m) == Ok(l.parent[v]);
      var b := parentList[bank[v] / topk];
      assert b in m && bank[m[b]] == b;
    }
  }

  /** The parents the builder finds precede their children exactly if the selection lists them first. */
  lemma FirstIsPrecede(parent: seq<int>, bank: seq<int>, parentList: seq<int>, topk: int)
    requires topk > 0 && |parent| == |bank| && HasParents(parent) && DistinctBanks(bank)
    requires forall v | 0 < v < |bank| ::
        var slot := bank[v] / topk; 0 <= slot < |parentList| && bank[parent[v]] == parentList[slot]
    ensures ParentsPrecede(parent) <==> ParentsFirst(bank, parentList, topk)
  {
    forall u, v | 0 < v < |bank| && 0 <= u < |bank| && bank[u] == parentList[bank[v] / topk]
      ensures parent[v] == u
    {
      assert bank[parent[v]] == bank[u];
    }
    forall v | 0 < v < |bank|
      ensures bank[parent[v]] == parentList[bank[v] / topk]
    {
    }
  }

  /** `build_draft_tree` for one request, with the packed mask.  It succeeds exactly on
      well-shaped, duplicate-free and prefix-closed selections. */
  method BuildDraftTree(verifiedId: int, parentList: seq<int>, topScoresIndex: seq<int>, draftTokens: seq<int>,
      seqLen: int, topk: int, specSteps: int, ghost rank: seq<nat>) returns (r: Result<DraftTree>)
    requires topk > 0 ==> ParentsRanked([0] + topScoresIndex, parentList, topk, rank)
    ensures r.Ok? <==>
      && |draftTokens| == |topScoresIndex| && topk > 0 && specSteps > 0
      && DistinctBanks([0] + topScoresIndex) && PrefixClosed([0] + topScoresIndex, parentList, topk)
    ensures r.Ok? ==>
        topk > 0 && Describes(r.value, verifiedId, draftTokens, [0] + topScoresIndex, parentList, topk, seqLen, rank)
    ensures r.Ok? ==>
        (ParentsPrecede(r.value.parentLocal) <==> ParentsFirst([0] + topScoresIndex, parentList, topk))
  {
    if |draftTokens| != |topScoresIndex| {
      return Err(LengthMismatch);
    }
    if topk <= 0 {
      return Err(NonPositiveTopk);
    }
    if specSteps <= 0 {
      return Err(NonPositiveSteps);
    }
    var bank := [0] + topScoresIndex;
    var n := |bank|;
    var banks := MapBanks(bank);
    if banks.Err? {
      return Err(banks.error);
    }
    ParentOfOk(bank, parentList, topk, banks.value);
    var linked := LinkParents(bank, parentList, topk, banks.value);
    if linked.Err? {
      return Err(linked.error);
    }
    var d := Assemble(verifiedId, draftTokens, bank, parentList, seqLen, topk, banks.value, linked.value, rank);
    FirstIsPrecede(d.parentLocal, bank, parentList, topk);
    r := Ok(d);
  }

  method Assemble(verifiedId: int, draftTokens: seq<int>, bank: seq<int>, parentList: seq<int>, seqLen: int, topk: int,
                  m: map<int, nat>, l: Linked, ghost rank: seq<nat>) returns (d: DraftTree)
    requires topk > 0 && MapsBanks(m, bank) && |bank| > 0 && LinkedOk(l, bank, parentList, topk, m, |bank|)
    requires ParentsRanked(bank, parentList, topk, rank)
    ensures Describes(d, verifiedId, draftTokens, bank, parentList, topk, seqLen, rank)
  {
    hide TreeOf, Links, MapsBanks, ParentsRanked, PackRow, Unpack, SlotsUnder, Order, DepthPass;
    var n := |bank|;
    LinkedParents(l, bank, parentList, topk, m, rank);
    var nextToken, nextSibling := LinkSiblings(bank, l.parent, l.children);
    var mask := BuildMask(l.parent, rank);
    var packed := PackMask(mask);
    forall v | 0 <= v < n
      ensures n <= 8 * |packed[v]|
      ensures forall a: nat | a < n :: Unpack(packed[v], n)[a] <==> AncestorOrSelf(l.parent, rank, v, a)
    {
      PackRoundTrip(MaskRow(mask, v));
    }
    var positions := seq(n, v requires 0 <= v < n => seqLen - 1 + l.depth[v]);
    d := DraftTree([verifiedId] + draftTokens, packed, positions, Order(n), nextToken, nextSibling, l.parent, l.depth);
    assert forall v | 0 <= v < n :: d.positions[v] == seqLen - 1 + d.depth[v];
  }

  /** A selection that lists a node before its parent is accepted, and the node's depth and position
      come out too small: bank 2 stands before its parent, bank 1. */
  method LateParentIsMisread() returns (r: Result<DraftTree>)
    ensures r.Ok? && r.value.parentLocal == [-1, 2, 0] && Acyclic(r.value.parentLocal, [0, 2, 1])
    ensures |r.value.depth| == |r.value.positions| == 3
    ensures r.value.depth[1] == 1 && TrueDepth(r.value.parentLocal, [0, 2, 1], 1) == 2
    ensures r.value.positions[1] == 10
  {
    hide DistinctBanks, PrefixClosed, ParentsRanked, ParentsFirst, TreeOf, Links, Order, Unpack;
    ghost var bank, parentList := [0] + [2, 1], [0, 0, 1];
    LateSelection(bank, parentList);
    r := BuildDraftTree(7, [0, 0, 1], [2, 1], [8, 9], 10, 1, 1, [0, 2, 1]);
    LateParents(r.value.parentLocal, bank, parentList);
  }

  lemma LateSelection(bank: seq<int>, parentList: seq<int>)
    requires bank == [0, 2, 1] && parentList == [0, 0, 1]
    ensures DistinctBanks(bank) && PrefixClosed(bank, parentList, 1) && ParentsRanked(bank, parentList, 1, [0, 2, 1])
  {
    assert 0 in bank && 1 in bank;
  }

  lemma LateParents(parent: seq<int>, bank: seq<int>, parentList: seq<int>)
    requires bank == [0, 2, 1] && parentList == [0, 0, 1] && |parent| == 3 && HasParents(parent)
    requires forall v | 0 < v < |bank| ::
        var slot := bank[v] / 1; 0 <= slot < |parentList| && bank[parent[v]] == parentList[slot]
    ensures parent == [-1, 2, 0] && Acyclic(parent, [0, 2, 1])
    ensures DepthPass(parent, 1) == 1 && TrueDepth(parent, [0, 2, 1], 1) == 2
  {
    assert bank[parent[1]] == parentList[bank[1] / 1] == 1;
    assert bank[parent[2]] == parentList[bank[2] / 1] == 0;
    assert TrueDepth(parent, [0, 2, 1], 0) == 0;
    assert TrueDepth(parent, [0, 2, 1], 2) == 1;
  }

  /** A built tree is what the sampling walk needs, when parents come first: with its links, tokens
      below the vocabulary size as candidates and any target rows of that width. */
  lemma BuiltTreeIsWalked(d: DraftTree, input: Input, vocab: nat, verifiedId: int, draftTokens: seq<int>,
      bank: seq<int>, parentList: seq<int>, topk: int, seqLen: int, rank: seq<nat>)
    requires topk > 0 && Describes(d, verifiedId, draftTokens, bank, parentList, topk, seqLen, rank)
    requires ParentsPrecede(d.parentLocal) && |draftTokens| + 1 == |bank|
    requires input.tree == TreeOf(d.parentLocal, bank) && input.candidates == d.draftTokens
    requires |input.target| == |bank| && forall v | 0 <= v < |bank| :: |input.target[v]| == vocab
    requires forall v | 0 <= v < |bank| :: d.draftTokens[v] < vocab
    ensures InputOk(input, vocab) && Links(input.tree, d.nextToken, d.nextSibling)
    ensures |d.retriveIndex| == |input.tree.kids| && Apart(d.retriveIndex)
    ensures forall v | 0 <= v < |d.retriveIndex| :: d.retriveIndex[v] < |bank|
  {
    hide TreeOf, Links;
    TreeOfOk(d.parentLocal, bank);
    assert input.candidates[0] == d.draftTokens[0];
  }
}
