/** The radix prefix cache of miniinfer/kvcache/radix_cache.py: a mutable tree of nodes with
    parent pointers, lock counts and node splitting.

    Ghost state: every node records its full token string `path` and the slots along it;
    the cache records the abstract map `view` it stands for and the paths of the lock
    handles handed out.  Splitting a node changes no existing path. */
module RadixTree {
  import opened Wrappers
  import opened Pages
  import opened PrefixMap
  import opened PagedMemory
  import opened PageOwnership
  import opened Orders

  class TreeNode {
    var children: map<seq<Token>, TreeNode>
    var parent: TreeNode?
    var key: seq<Token>
    var value: seq<int>
    var lockRef: int
    ghost var path: seq<Token>
    ghost var slots: seq<int>

    constructor ()
      ensures children == map[] && parent == null && key == [] && value == [] && lockRef == 0
      ensures path == [] && slots == []
    {
      children, parent, key, value, lockRef := map[], null, [], [], 0;
      path, slots := [], [];
    }

    /** A node whose fields are set right after creation. */
    constructor Under(parent: TreeNode, key: seq<Token>, value: seq<int>, lockRef: int, children: map<seq<Token>,
        TreeNode>)
      ensures this.children == children && this.parent == parent && this.lockRef == lockRef
      ensures this.key == key && this.value == value
      ensures path == parent.path + key && slots == parent.slots + value
    {
      this.parent, this.key, this.value, this.lockRef, this.children := parent, key, value, lockRef, children;
      path, slots := parent.path + key, parent.slots + value;
    }
  }

  // ---------- Lock handles ----------

  /** How many of the handles lie at or below the path `p`. */
  ghost function CountBelow(handles: seq<seq<Token>>, p: seq<Token>): nat {
    if handles == [] then 0
    else (if p <= handles[0] then 1 else 0) + CountBelow(handles[1..], p)
  }

  lemma {:induction false} CountBelowSame(handles: seq<seq<Token>>, p: seq<Token>, q: seq<Token>)
    requires forall h | h in handles :: p <= h <==> q <= h
    ensures CountBelow(handles, p) == CountBelow(handles, q)
  {
    if handles != [] {
      assert handles[0] in handles && forall h | h in handles[1..] :: h in handles;
      CountBelowSame(handles[1..], p, q);
    }
  }

  lemma {:induction false} CountBelowMonotone(handles: seq<seq<Token>>, p: seq<Token>, q: seq<Token>)
    requires p <= q
    ensures CountBelow(handles, q) <= CountBelow(handles, p)
  {
    if handles != [] {
      CountBelowMonotone(handles[1..], p, q);
      assert q <= handles[0] ==> p <= handles[0];
    }
  }

  lemma {:induction false} CountBelowRemove(handles: seq<seq<Token>>, i: nat, p: seq<Token>)
    requires i < |handles|
    ensures CountBelow(handles, p)
         == CountBelow(handles[..i] + handles[i + 1..], p) + (if p <= handles[i] then 1 else 0)
  {
    var rest := handles[..i] + handles[i + 1..];
    if i == 0 {
      assert rest == handles[1..];
    } else {
      CountBelowRemove(handles[1..], i - 1, p);
      assert rest[1..] == handles[1..][..i - 1] + handles[1..][i..];
      assert handles[1..][i..] == handles[i + 1..];
    }
  }

  lemma {:induction false} CountBelowPositive(handles: seq<seq<Token>>, p: seq<Token>)
    ensures CountBelow(handles, p) > 0 <==> exists h :: h in handles && p <= h
  {
    if handles != [] {
      CountBelowPositive(handles[1..], p);
      assert handles == [handles[0]] + handles[1..];
      if h :| h in handles[1..] && p <= h {
        assert h in handles;
      }
      if p <= handles[0] {
        assert handles[0] in handles;
      }
    }
  }

  lemma RemoveHandle(handles: seq<seq<Token>>, p: seq<Token>) returns (rest: seq<seq<Token>>)
    requires p in handles
    ensures multiset(rest) == multiset(handles) - multiset{p}
    ensures forall h | h in rest :: h in handles
    ensures forall q :: CountBelow(handles, q) == CountBelow(rest, q) + (if q <= p then 1 else 0)
  {
    var i: nat :| i < |handles| && handles[i] == p;
    rest := handles[..i] + handles[i + 1..];
    assert handles == handles[..i] + [p] + handles[i + 1..];
    forall q
      ensures CountBelow(handles, q) == CountBelow(rest, q) + (if q <= p then 1 else 0)
    {
      CountBelowRemove(handles, i, q);
    }
  }

  // ---------- Sums over nodes ----------

  /** Total key length of a set of nodes. */
  ghost function KeyTotal(s: set<TreeNode>): nat
    reads s`key
    decreases s
  {
    if s == {} then 0
    else
      var n :| n in s;
      |n.key| + KeyTotal(s - {n})
  }

  lemma {:induction false} KeyTotalWithout(s: set<TreeNode>, n: TreeNode)
    requires n in s
    ensures KeyTotal(s) == |n.key| + KeyTotal(s - {n})
    decreases s
  {
    var k :| k in s && KeyTotal(s) == |k.key| + KeyTotal(s - {k});
    if k != n {
      KeyTotalWithout(s - {k}, n);
      KeyTotalWithout(s - {n}, k);
      assert s - {k} - {n} == s - {n} - {k};
    }
  }

  // ---------- Slices of paths ----------

  /** Strings that agree up to `j` agree up to any shorter length. */
  lemma Agree(a: seq<Token>, b: seq<Token>, j: nat, i: nat)
    requires i <= j <= |a| && j <= |b| && a[..j] == b[..j]
    ensures a[..i] == b[..i]
  {
    assert a[..i] == a[..j][..i] && b[..i] == b[..j][..i];
  }

  lemma PrefixTrans(a: seq<Token>, b: seq<Token>, c: seq<Token>)
    requires a <= b <= c
    ensures a <= c
  {
  }

  lemma SliceOfPrefix(p: seq<int>, h: seq<int>, k: nat)
    requires k <= |p|
    ensures p <= h ==> k <= |h| && h[..k] == p[..k]
  {
  }

  lemma PrefixOfConcat(p: seq<int>, k: seq<int>, n: nat)
    requires n <= |k|
    ensures p + k[..n] <= p + k
  {
  }

  lemma SamePage(a: seq<Token>, b: seq<Token>, at: nat, ps: nat)
    requires at + ps <= |a| && at + ps <= |b| && a[..at + ps] == b[..at + ps]
    ensures a[at..at + ps] == b[at..at + ps]
  {
    assert a[at..at + ps] == a[..at + ps][at..] && b[at..at + ps] == b[..at + ps][at..];
  }

  lemma PageOfConcat(p: seq<Token>, k: seq<Token>, ps: nat)
    requires ps <= |k|
    ensures (p + k)[|p|..|p| + ps] == k[..ps]
  {
  }

  lemma PrefixThenSlice(p: seq<int>, k: seq<int>, i: nat)
    requires i <= |k|
    ensures (p + k)[..|p| + i] == p + k[..i]
  {
  }

  lemma PagesAfter(p: seq<Token>, rest: seq<Token>, path: seq<Token>, ps: nat)
    requires ps <= |rest| && (p + rest)[..|p| + ps] <= path
    ensures p <= path && |p| + ps <= |path| && path[|p|..|p| + ps] == rest[..ps]
  {
    assert (p + rest)[..|p| + ps] == p + rest[..ps];
    assert path[..|p| + ps] == p + rest[..ps];
    assert path[|p|..|p| + ps] == path[..|p| + ps][|p|..];
  }

  lemma SharedStart(p: seq<Token>, k: seq<Token>, rest: seq<Token>, i: nat, ps: nat, path: seq<Token>)
    requires 0 < ps <= i && i + ps <= |k| && i + ps <= |rest| && k[..i] == rest[..i]
    requires (p + rest)[..|p| + i + ps] <= path
    ensures |p| + ps <= |path| && path[..|p| + ps] == (p + k)[..|p| + ps] && path != []
  {
    PrefixThenSlice(p, rest, i + ps);
    assert path[..|p| + i + ps] == p + rest[..i + ps];
    assert path[..|p| + ps] == path[..|p| + i + ps][..|p| + ps] == p + rest[..ps];
    assert rest[..ps] == rest[..i][..ps] == k[..i][..ps] == k[..ps];
    PrefixThenSlice(p, k, ps);
  }

  lemma TwoPrefixes(p: seq<Token>, k: seq<Token>, rest: seq<Token>, i: nat, ps: nat, path: seq<Token>)
    requires i + ps <= |k| && i + ps <= |rest|
    requires (p + rest)[..|p| + i + ps] <= path && p + k <= path
    ensures k[i..i + ps] == rest[i..i + ps]
  {
    var a, b := |p| + i, |p| + i + ps;
    assert path[..b] == (p + rest)[..b];
    assert path[a..b] == path[..b][a..] == (p + rest)[..b][a..] == rest[i..i + ps];
    assert path[..|p + k|] == p + k;
    assert path[a..b] == path[..|p + k|][a..b] == k[i..i + ps];
  }

  // ---------- Comparing keys page by page ----------

  /** `i` is how far `a` and `b` agree, counted in whole pages. */
  ghost predicate IsCommonPages(a: seq<Token>, b: seq<Token>, i: nat, ps: nat)
    requires ps > 0
  {
    && i <= |a| && i <= |b| && Aligned(i, ps) && a[..i] == b[..i]
    && (i == |a| || i == |b| || (i + ps <= |a| && i + ps <= |b| && a[i..i + ps] != b[i..i + ps]))
  }

  /** `_key_match_page_size1`. */
  method KeyMatchPageSize1(a: seq<Token>, b: seq<Token>) returns (i: nat)
    ensures IsCommonPages(a, b, i, 1)
  {
    i := 0;
    while i < |a| && i < |b|
      invariant i <= |a| && i <= |b| && Aligned(i, 1) && a[..i] == b[..i]
    {
      if a[i] != b[i] {
        assert a[i..i + 1] == [a[i]] && b[i..i + 1] == [b[i]];
        assert a[i..i + 1][0] != b[i..i + 1][0];
        break;
      }
      assert Aligned(i + 1, 1);
      i := i + 1;
    }
  }

  /** `_key_match_paged`, on keys that consist of whole pages. */
  method KeyMatchPaged(a: seq<Token>, b: seq<Token>, ps: nat) returns (i: nat)
    requires ps > 0 && Aligned(|a|, ps) && Aligned(|b|, ps)
    ensures IsCommonPages(a, b, i, ps)
  {
    var minLen := if |a| <= |b| then |a| else |b|;
    i := 0;
    while i < minLen
      invariant i <= minLen && Aligned(i, ps) && a[..i] == b[..i]
    {
      AlignedGap(i, |a|, ps);
      AlignedGap(i, |b|, ps);
      if a[i..i + ps] != b[i..i + ps] {
        break;
      }
      assert a[..i + ps] == a[..i] + a[i..i + ps];
      assert b[..i + ps] == b[..i] + b[i..i + ps];
      assert Aligned(i + ps, ps);
      i := i + ps;
    }
  }

  // ---------- The tree ----------

  class RadixCache {
    const pageSize: nat
    const root: TreeNode
    const allocator: PagedTokenAllocator
    var evictableSize: int
    var protectedSize: int
    ghost var nodes: set<TreeNode>
    ghost var view: View
    ghost var handles: seq<seq<Token>>

    function FirstPage(key: seq<Token>): seq<Token>
      requires |key| >= pageSize
    {
      key[..pageSize]
    }

    /** Parent pointer, child dictionary and key of one node agree. */
    ghost predicate NodeOk(n: TreeNode)
      requires pageSize > 0 && n in nodes
      reads this`nodes, nodes`children, nodes`parent, nodes`key, nodes`value, nodes`path, nodes`slots
    {
      && Aligned(|n.path|, pageSize) && |n.slots| == |n.path|
      && (forall k {:trigger n.children[k]} | k in n.children ::
            && n.children[k] in nodes && n.children[k] != root && n.children[k].parent == n
            && |n.children[k].key| >= pageSize && FirstPage(n.children[k].key) == k)
      && (n != root ==>
            && n.parent != null && n.parent in nodes
            && |n.key| >= pageSize && Aligned(|n.key|, pageSize) && |n.value| == |n.key|
            && n.path == n.parent.path + n.key && n.slots == n.parent.slots + n.value
            && FirstPage(n.key) in n.parent.children && n.parent.children[FirstPage(n.key)] == n)
    }

    ghost predicate Shape()
      reads this`nodes, nodes`children, nodes`parent, nodes`key, nodes`value, nodes`path, nodes`slots
    {
      && pageSize > 0 && root in nodes
      && root.parent == null && root.key == [] && root.path == [] && root.slots == []
      && (forall n {:trigger NodeOk(n)} | n in nodes :: NodeOk(n))
    }

    /** A node's lock count is the number of handles at or below it, and no node that holds
        a handle has left the tree. */
    ghost predicate Locks()
      reads this`nodes, this`handles, nodes`lockRef, nodes`path
    {
      && root in nodes && root.lockRef == 1
      && (forall n | n in nodes && n != root :: n.lockRef == CountBelow(handles, n.path))
      && (forall h | h in handles :: exists n :: n in nodes && n.path == h)
    }

    ghost function NodesWith(locked: bool): (s: set<TreeNode>)
      reads this`nodes, nodes`lockRef
      ensures s <= nodes
    {
      set n | n in nodes && n != root && (n.lockRef > 0) == locked
    }

    /** The size counters are the total key lengths of the unlocked and the locked nodes. */
    ghost predicate Sizes()
      reads this`nodes, this`evictableSize, this`protectedSize, nodes`lockRef, nodes`key
    {
      evictableSize == KeyTotal(NodesWith(false)) && protectedSize == KeyTotal(NodesWith(true))
    }

    /** The tree stands for the map `view`: its entries are the page-aligned prefixes of the
        node paths. */
    ghost predicate Stands()
      reads this`nodes, this`view, nodes`path, nodes`slots
    {
      && pageSize > 0
      && (forall n | n in nodes :: |n.slots| == |n.path| && Covers(view, n.path, n.slots, pageSize))
      && (forall p | p in view :: Aligned(|p|, pageSize) && exists n :: n in nodes && p <= n.path)
    }

    ghost predicate Valid()
      reads this, nodes
    {
      Shape() && Locks() && Sizes() && Stands()
    }

    constructor (allocator: PagedTokenAllocator, pageSize: nat)
      requires pageSize > 0
      ensures Valid() && this.allocator == allocator && this.pageSize == pageSize
      ensures fresh(nodes) && nodes == {root} && view == map[[] := []] && handles == []
      ensures evictableSize == 0 && protectedSize == 0
    {
      var r := new TreeNode();
      r.lockRef := 1;
      this.allocator := allocator;
      this.pageSize := pageSize;
      root := r;
      evictableSize, protectedSize := 0, 0;
      nodes, view, handles := {r}, map[[] := []], [];
      new;
      assert NodesWith(false) == {} && NodesWith(true) == {};
    }

    // ---------- Paths identify positions ----------

    lemma EdgePage(n: TreeNode)
      requires Shape() && n in nodes && n != root
      ensures NodeOk(n) && NodeOk(n.parent)
      ensures |n.parent.path| + pageSize <= |n.path| && n.parent.path <= n.path
      ensures n.path[|n.parent.path|..|n.parent.path| + pageSize] == FirstPage(n.key)
    {
      assert NodeOk(n);
      PageOfConcat(n.parent.path, n.key, pageSize);
    }

    lemma SiblingByPage(m: TreeNode, n: TreeNode)
      requires Shape() && m in nodes && n in nodes && m != root && n != root
      requires NodeOk(m) && NodeOk(n) && m.parent == n.parent
      requires |m.parent.path| + pageSize <= |n.path|
      requires n.path[..|m.parent.path| + pageSize] == m.path[..|m.parent.path| + pageSize]
      ensures n == m
    {
      EdgePage(n);
      EdgePage(m);
      SamePage(n.path, m.path, |m.parent.path|, pageSize);
    }

    /** `n`'s path enters `m`'s edge: it runs past `m.parent` with the page `m` hangs on. */
    ghost predicate EntersEdge(m: TreeNode, n: TreeNode)
      reads this`nodes, nodes`children, nodes`parent, nodes`key, nodes`value, nodes`path, nodes`slots
    {
      && Shape() && m in nodes && n in nodes && m != root && n != root && NodeOk(m) && NodeOk(n)
      && |m.parent.path| + pageSize <= |n.path|
      && |m.parent.path| + pageSize <= |m.path|
      && n.path[..|m.parent.path| + pageSize] == m.path[..|m.parent.path| + pageSize]
    }

    /** Then `n` is `m` or lies below it. */
    lemma {:induction false} EdgeUnique(m: TreeNode, n: TreeNode)
      requires EntersEdge(m, n)
      ensures n == m || m.path <= n.parent.path
      decreases |m.path| + |n.path|, 1
    {
      var at := |m.parent.path|;
      EdgePage(n);
      EdgePage(m);
      if |n.parent.path| > at {
        EdgeBelowParent(m, n);
      } else if |n.parent.path| == at {
        Agree(n.path, m.path, at + pageSize, at);
        SamePath(n.parent, m.parent);
        SiblingByPage(m, n);
      } else {
        EdgeAboveParent(m, n);
      }
    }

    lemma {:induction false} EdgeBelowParent(m: TreeNode, n: TreeNode)
      requires EntersEdge(m, n) && |n.parent.path| > |m.parent.path|
      ensures m.path <= n.parent.path
      decreases |m.path| + |n.path|, 0
    {
      var q, at := n.parent, |m.parent.path|;
      EdgePage(n);
      EdgePage(q);
      assert NodeOk(m.parent);
      AlignedGap(at, |q.path|, pageSize);
      Agree(n.path, q.path, |q.path|, at + pageSize);
      EdgeUnique(m, q);
      if q != m {
        PrefixTrans(m.path, q.parent.path, q.path);
      }
    }

    lemma {:induction false} EdgeAboveParent(m: TreeNode, n: TreeNode)
      requires EntersEdge(m, n)
      ensures |n.parent.path| >= |m.parent.path|
      decreases |m.path| + |n.path|, 0
    {
      var q, mp, at := n.parent, m.parent, |m.parent.path|;
      EdgePage(n);
      EdgePage(m);
      if |q.path| < at {
        AlignedGap(|q.path|, at, pageSize);
        Agree(n.path, m.path, at + pageSize, |q.path| + pageSize);
        Agree(m.path, mp.path, at, |q.path| + pageSize);
        EdgePage(mp);
        EdgeUnique(n, mp);
      }
    }

    lemma {:induction false} SamePath(a: TreeNode, b: TreeNode)
      requires Shape() && a in nodes && b in nodes && a.path == b.path
      ensures a == b
      decreases |a.path| + |b.path|, 2
    {
      if a != root {
        EdgePage(a);
      }
      if b != root {
        EdgePage(b);
      }
      if a != root && b != root {
        EdgeUnique(a, b);
      }
    }

    /** If a stored path continues past `m` with some page, `m` has a child for that page. */
    lemma {:induction false} ChildForPage(m: TreeNode, n: TreeNode)
      requires Shape() && m in nodes && n in nodes && m.path <= n.path && |m.path| < |n.path|
      ensures |m.path| + pageSize <= |n.path|
      ensures n.path[|m.path|..|m.path| + pageSize] in m.children
      decreases |n.path|
    {
      var q, at := n.parent, |m.path|;
      EdgePage(n);
      assert NodeOk(m);
      AlignedGap(at, |n.path|, pageSize);
      if |q.path| > at {
        Agree(n.path, q.path, |q.path|, at);
        ChildForPage(m, q);
        SamePage(n.path, q.path, at, pageSize);
      } else if |q.path| == at {
        Agree(n.path, q.path, at, at);
        SamePath(m, q);
      } else {
        AlignedGap(|q.path|, at, pageSize);
        Agree(m.path, n.path, at, |q.path| + pageSize);
        EdgePage(m);
        EdgeUnique(n, m);
      }
    }

    // ---------- Splitting a node ----------

    /** Strings stored below the split point are exactly those stored below `child`. */
    lemma SplitSeesNoOther(child: TreeNode, n: TreeNode, splitLen: nat)
      requires Shape() && child in nodes && n in nodes && child != root && NodeOk(child)
      requires pageSize <= splitLen && splitLen + pageSize <= |child.key| && Aligned(splitLen, pageSize)
      ensures child.parent.path + child.key[..splitLen] <= n.path <==> child.path <= n.path
    {
      EdgePage(child);
      var at := |child.parent.path|;
      var mid := child.parent.path + child.key[..splitLen];
      assert mid == child.path[..at + splitLen];
      if mid <= n.path {
        assert n.path != [];
        EdgePage(n);
        Agree(n.path, child.path, at + splitLen, at + pageSize);
        EdgeUnique(child, n);
        if n != child {
          PrefixTrans(child.path, n.parent.path, n.path);
        }
      }
    }

    lemma SplitSeesNoHandle(child: TreeNode, splitLen: nat)
      requires Shape() && Locks() && child in nodes && child != root && NodeOk(child)
      requires pageSize <= splitLen && splitLen + pageSize <= |child.key| && Aligned(splitLen, pageSize)
      ensures forall h | h in handles :: child.parent.path + child.key[..splitLen] <= h <==> child.path <= h
    {
      forall h | h in handles
        ensures child.parent.path + child.key[..splitLen] <= h <==> child.path <= h
      {
        var n :| n in nodes && n.path == h;
        SplitSeesNoOther(child, n, splitLen);
      }
    }

    /** What the field updates of `_split_node` amount to. */
    twostate predicate SplitDone(child: TreeNode, new newNode: TreeNode, new splitLen: nat)
      reads this`nodes, nodes`children, nodes`parent, nodes`key, nodes`value, nodes`path, nodes`slots
    {
      && pageSize > 0 && pageSize <= splitLen && splitLen + pageSize <= old(|child.key|) && Aligned(splitLen, pageSize)
      && child in old(nodes) && child != root && newNode !in old(nodes) && nodes == old(nodes) + {newNode}
      && old(child.parent) != null && old(child.parent) in old(nodes) && old(child.parent) != child
      && old(|child.value|) == old(|child.key|)
      && newNode.parent == old(child.parent) && child.parent == newNode
      && newNode.key == old(child.key)[..splitLen] && newNode.value == old(child.value)[..splitLen]
      && child.key == old(child.key)[splitLen..] && child.value == old(child.value)[splitLen..]
      && newNode.path == newNode.parent.path + newNode.key && newNode.slots == newNode.parent.slots + newNode.value
      && newNode.children == map[child.key[..pageSize] := child]
      && newNode.parent.children == old(child.parent.children)[old(child.key)[..pageSize] := newNode]
      && (forall n | n in old(nodes) :: n.path == old(n.path) && n.slots == old(n.slots))
      && (forall n | n in old(nodes) && n != child ::
           n.parent == old(n.parent) && n.key == old(n.key) && n.value == old(n.value))
      && (forall n | n in old(nodes) && n != newNode.parent :: n.children == old(n.children))
    }

    twostate lemma SplitKeepsShape(child: TreeNode, new newNode: TreeNode, new splitLen: nat)
      requires SplitDone(child, newNode, splitLen) && old(Shape()) && old(NodeOk(child))
      ensures Shape()
    {
      forall n | n in nodes
        ensures NodeOk(n)
      {
        if n == newNode {
          SplitNewOk(child, newNode, splitLen);
        } else if n == child {
          SplitChildOk(child, newNode, splitLen);
        } else if n == newNode.parent {
          SplitParentOk(child, newNode, splitLen);
        } else {
          assert old(NodeOk(n));
        }
      }
    }

    twostate lemma SplitNewOk(child: TreeNode, new newNode: TreeNode, new splitLen: nat)
      requires SplitDone(child, newNode, splitLen) && old(Shape()) && old(NodeOk(child))
      ensures NodeOk(newNode)
    {
      assert old(NodeOk(child.parent));
      AlignedAdd(|newNode.parent.path|, splitLen, pageSize);
      assert newNode.key[..pageSize] == old(child.key)[..pageSize];
    }

    twostate lemma SplitChildOk(child: TreeNode, new newNode: TreeNode, new splitLen: nat)
      requires SplitDone(child, newNode, splitLen) && old(Shape()) && old(NodeOk(child))
      ensures NodeOk(child)
    {
      AlignedSub(old(|child.key|), splitLen, pageSize);
      assert child.path == newNode.parent.path + (newNode.key + child.key);
      assert child.slots == newNode.parent.slots + (newNode.value + child.value);
      assert child.children == old(child.children);
    }

    twostate lemma SplitParentOk(child: TreeNode, new newNode: TreeNode, new splitLen: nat)
      requires SplitDone(child, newNode, splitLen) && old(Shape()) && old(NodeOk(child))
      ensures NodeOk(newNode.parent)
    {
      var p := newNode.parent;
      assert old(NodeOk(p));
      assert newNode.key[..pageSize] == old(child.key)[..pageSize];
      forall k | k in p.children
        ensures p.children[k] in nodes && p.children[k] != root && p.children[k].parent == p
        ensures |p.children[k].key| >= pageSize && FirstPage(p.children[k].key) == k
      {
        if k != old(child.key)[..pageSize] {
          assert p.children[k] == old(p.children[k]) && old(FirstPage(p.children[k].key)) == k;
          assert p.children[k] != child;
        }
      }
    }

    /** The new node sits at a fresh path that divides `child`'s path, so its lock count is
        `child`'s. */
    twostate lemma SplitKeepsLocks(child: TreeNode, new newNode: TreeNode, new splitLen: nat)
      requires SplitDone(child, newNode, splitLen) && old(Locks())
      requires handles == old(handles) && newNode.lockRef == old(child.lockRef) && newNode != root
      requires forall n | n in old(nodes) :: n.lockRef == old(n.lockRef)
      requires forall h | h in handles :: newNode.path <= h <==> child.path <= h
      ensures Locks()
    {
      forall h | h in handles
        ensures exists n :: n in nodes && n.path == h
      {
        var n :| n in old(nodes) && old(n.path) == h;
        assert n in nodes && n.path == h;
      }
      CountBelowSame(handles, newNode.path, child.path);
    }

    twostate lemma SplitKeepsSizes(child: TreeNode, new newNode: TreeNode, new splitLen: nat)
      requires SplitDone(child, newNode, splitLen) && old(Sizes())
      requires evictableSize == old(evictableSize) && protectedSize == old(protectedSize)
      requires newNode.lockRef == child.lockRef && newNode != root
      requires forall n | n in old(nodes) :: n.lockRef == old(n.lockRef)
      requires old(KeyTotal(NodesWith(child.lockRef > 0)))
            == old(|child.key|) + old(KeyTotal(NodesWith(child.lockRef > 0) - {child}))
      ensures Sizes()
    {
      var locked := child.lockRef > 0;
      var same, s := NodesWith(!locked), NodesWith(locked);
      assert same == old(NodesWith(!locked));
      assert s == old(NodesWith(locked)) + {newNode};
      KeyTotalWithout(s, newNode);
      KeyTotalWithout(s - {newNode}, child);
      assert s - {newNode} - {child} == old(NodesWith(locked)) - {child};
    }

    twostate lemma SplitStandsForSame(child: TreeNode, new newNode: TreeNode, new splitLen: nat)
      requires SplitDone(child, newNode, splitLen) && old(Stands())
      requires newNode.path <= child.path && newNode.slots <= child.slots && |newNode.path| == |newNode.slots|
      requires view == old(view)
      ensures Stands()
    {
      assert |child.slots| == |child.path| && Covers(view, child.path, child.slots, pageSize);
      CoversShorter(view, child.path, child.slots, |newNode.path|, pageSize);
      assert child.path[..|newNode.path|] == newNode.path && child.slots[..|newNode.path|] == newNode.slots;
      forall p | p in view
        ensures Aligned(|p|, pageSize) && exists n :: n in nodes && p <= n.path
      {
        var n :| n in old(nodes) && p <= old(n.path);
        assert n in nodes && p <= n.path;
      }
    }

    /** `_split_node`: put a new node above `child`.  Nothing observable changes. */
    method SplitNode(child: TreeNode, splitLen: nat) returns (newNode: TreeNode)
      requires Valid() && child in nodes && child != root && NodeOk(child)
      requires pageSize <= splitLen && splitLen + pageSize <= |child.key| && Aligned(splitLen, pageSize)
      modifies this`nodes, child`parent, child`key, child`value, child.parent`children
      ensures Valid() && fresh(newNode) && SplitDone(child, newNode, splitLen)
      ensures nodes == old(nodes) + {newNode} && newNode.lockRef == child.lockRef && newNode != root
      ensures newNode.path == old(child.parent.path + child.key[..splitLen])
      ensures newNode.value == old(child.value[..splitLen]) && newNode.slots == old(child.parent.slots) + newNode.value
      ensures newNode.children == map[old(child.key)[splitLen..][..pageSize] := child]
    {
      SplitSeesNoHandle(child, splitLen);
      KeyTotalWithout(NodesWith(child.lockRef > 0), child);
      newNode := SplitFields(child, splitLen);
      SplitKeepsShape(child, newNode, splitLen);
      SplitKeepsLocks(child, newNode, splitLen);
      SplitKeepsSizes(child, newNode, splitLen);
      SplitStandsForSame(child, newNode, splitLen);
    }

    method SplitFields(child: TreeNode, splitLen: nat) returns (newNode: TreeNode)
      requires Shape() && child in nodes && child != root && NodeOk(child)
      requires pageSize <= splitLen && splitLen + pageSize <= |child.key| && Aligned(splitLen, pageSize)
      modifies this`nodes, child`parent, child`key, child`value, child.parent`children
      ensures fresh(newNode) && SplitDone(child, newNode, splitLen)
      ensures newNode.lockRef == child.lockRef && newNode != root
      ensures newNode.path <= child.path && newNode.slots <= child.slots && |newNode.path| == |newNode.slots|
      ensures newNode.path == old(child.parent.path + child.key[..splitLen])
    {
      EdgePage(child);
      PrefixOfConcat(child.parent.path, child.key, splitLen);
      PrefixOfConcat(child.parent.slots, child.value, splitLen);
      var key := child.key;
      newNode := new TreeNode.Under(child.parent, child.key[..splitLen], child.value[..splitLen], child.lockRef,
                                    map[FirstPage(key[splitLen..]) := child]);
      child.parent := newNode;
      child.key := child.key[splitLen..];
      child.value := child.value[splitLen..];
      newNode.parent.children := newNode.parent.children[FirstPage(key) := newNode];
      nodes := nodes + {newNode};
    }

    // ---------- Walking down a key ----------

    lemma ViewWellFormed()
      requires Shape() && Stands()
      ensures WellFormed(view, pageSize)
    {
      assert NodeOk(root);
      assert [] == root.path[..0];
      forall p | p in view
        ensures Aligned(|p|, pageSize) && |view[p]| == |p| && Covers(view, p, view[p], pageSize)
      {
        var n :| n in nodes && p <= n.path;
        assert n.path[..|p|] == p && n.slots[..|p|] == view[p];
        CoversShorter(view, n.path, n.slots, |p|, pageSize);
      }
    }

    /** The stored string below which the walk stands: `key` is stored up to `node`. */
    ghost predicate At(node: TreeNode, key: seq<Token>, rest: seq<Token>)
      reads this`nodes, nodes`path
    {
      node in nodes && key == node.path + rest
    }

    lemma StoredAt(n: TreeNode, k: nat)
      requires Shape() && Stands() && n in nodes && k <= |n.path| && Aligned(k, pageSize)
      ensures k <= |n.slots| && n.path[..k] in view && view[n.path[..k]] == n.slots[..k]
    {
      assert |n.slots| == |n.path| && Covers(view, n.path, n.slots, pageSize);
    }

    /** A string that no path extends is not stored. */
    lemma NotStored(p: seq<Token>)
      requires Shape() && Stands() && forall n | n in nodes :: !(p <= n.path)
      ensures p !in view
    {
    }

    /** The next page after a stored prefix of `key` decides its longest stored prefix. */
    lemma NextPageDecides(key: seq<Token>, m: nat)
      requires Shape() && Stands() && m <= |key| && Aligned(m, pageSize) && key[..m] in view
      requires m + pageSize <= |key| ==> forall n | n in nodes :: !(key[..m + pageSize] <= n.path)
      ensures IsMatchLen(view, key, pageSize, m)
    {
      hide Stands;
      if m + pageSize <= |key| {
        NotStored(key[..m + pageSize]);
      }
      ViewWellFormed();
      MatchStopsAtFirstGap(view, key, pageSize, m);
    }

    /** No child for the next page: the longest stored prefix ends at `node`. */
    lemma NoChildStops(node: TreeNode, key: seq<Token>, rest: seq<Token>)
      requires Shape() && Stands() && At(node, key, rest)
      requires |rest| >= pageSize ==> rest[..pageSize] !in node.children
      ensures IsMatchLen(view, key, pageSize, |node.path|) && key[..|node.path|] == node.path
      ensures node.path in view && view[node.path] == node.slots
    {
      hide Stands;
      var m := |node.path|;
      assert NodeOk(node);
      StoredAt(node, m);
      assert node.path[..m] == node.path && node.slots[..m] == node.slots && key[..m] == node.path;
      if m + pageSize <= |key| {
        forall n | n in nodes
          ensures !(key[..m + pageSize] <= n.path)
        {
          NoChildExtends(node, key, rest, n);
        }
      }
      NextPageDecides(key, m);
    }

    lemma NoChildExtends(node: TreeNode, key: seq<Token>, rest: seq<Token>, n: TreeNode)
      requires Shape() && At(node, key, rest) && n in nodes
      requires |rest| >= pageSize && rest[..pageSize] !in node.children
      ensures !(key[..|node.path| + pageSize] <= n.path)
    {
      if key[..|node.path| + pageSize] <= n.path {
        PagesAfter(node.path, rest, n.path, pageSize);
        ChildForPage(node, n);
      }
    }

    /** The walk leaves the edge of `child` after `i` tokens: the longest stored prefix ends
        inside that edge. */
    lemma MismatchStops(node: TreeNode, child: TreeNode, key: seq<Token>, rest: seq<Token>, i: nat)
      requires Shape() && Stands() && At(node, key, rest) && child in nodes && child != root && child.parent == node
      requires NodeOk(child) && pageSize <= i < |child.key| && IsCommonPages(child.key, rest, i, pageSize)
      ensures i + pageSize <= |child.key| && IsMatchLen(view, key, pageSize, |node.path| + i)
      ensures key[..|node.path| + i] == node.path + child.key[..i]
      ensures node.path + child.key[..i] in view
      ensures view[node.path + child.key[..i]] == node.slots + child.value[..i]
    {
      hide Stands;
      var m := |node.path| + i;
      assert NodeOk(node);
      AlignedGap(i, |child.key|, pageSize);
      AlignedAdd(|node.path|, i, pageSize);
      PrefixThenSlice(node.path, rest, i);
      PrefixThenSlice(node.path, child.key, i);
      PrefixThenSlice(node.slots, child.value, i);
      StoredAt(child, m);
      if m + pageSize <= |key| {
        forall n | n in nodes
          ensures !(key[..m + pageSize] <= n.path)
        {
          MismatchExtends(node, child, key, rest, i, n);
        }
      }
      NextPageDecides(key, m);
    }

    lemma MismatchExtends(node: TreeNode, child: TreeNode, key: seq<Token>, rest: seq<Token>, i: nat, n: TreeNode)
      requires Shape() && At(node, key, rest) && child in nodes && child != root && NodeOk(child)
      requires child.parent == node
      requires pageSize <= i && i + pageSize <= |child.key| && i + pageSize <= |rest|
      requires child.key[..i] == rest[..i] && child.key[i..i + pageSize] != rest[i..i + pageSize] && n in nodes
      ensures !(key[..|node.path| + i + pageSize] <= n.path)
    {
      hide Aligned, Shape;
      PathsNonEmpty();
      if key[..|node.path| + i + pageSize] <= n.path {
        SharedStart(node.path, child.key, rest, i, pageSize, n.path);
        EdgePage(child);
        EdgePage(n);
        EdgeUnique(child, n);
        if n != child {
          PrefixTrans(child.path, n.parent.path, n.path);
        }
        TwoPrefixes(node.path, child.key, rest, i, pageSize, n.path);
      }
    }

    /** One step down: the child for the next page of the key. */
    lemma ChildOfPage(node: TreeNode, page: seq<Token>)
      requires Shape() && node in nodes && page in node.children
      ensures node.children[page] in nodes && node.children[page] != root && NodeOk(node.children[page])
      ensures node.children[page].parent == node && |node.children[page].key| >= pageSize
      ensures node.children[page].key[..pageSize] == page
    {
      assert NodeOk(node);
      assert NodeOk(node.children[page]);
    }

    /** `key_match_fn`, chosen by page size.  A child reached by its first page shares at least
        that page. */
    method KeyMatch(a: seq<Token>, b: seq<Token>) returns (i: nat)
      requires pageSize > 0 && Aligned(|a|, pageSize) && Aligned(|b|, pageSize)
      requires |a| >= pageSize && |b| >= pageSize && a[..pageSize] == b[..pageSize]
      ensures IsCommonPages(a, b, i, pageSize) && i >= pageSize
    {
      if pageSize == 1 {
        i := KeyMatchPageSize1(a, b);
      } else {
        i := KeyMatchPaged(a, b, pageSize);
      }
      assert a[0..pageSize] == a[..pageSize] && b[0..pageSize] == b[..pageSize];
      if i > 0 {
        AlignedGap(0, i, pageSize);
      }
    }

    lemma PassChild(node: TreeNode, child: TreeNode, k: seq<Token>, rest: seq<Token>)
      requires Shape() && At(node, k, rest) && Aligned(|rest|, pageSize)
      requires child in nodes && child != root && NodeOk(child) && child.parent == node
      requires IsCommonPages(child.key, rest, |child.key|, pageSize)
      ensures At(child, k, rest[|child.key|..]) && Aligned(|rest[|child.key|..]|, pageSize)
      ensures |child.key| < |rest| ==> |rest| - |child.key| >= pageSize
      ensures child.slots == node.slots + child.value
    {
      AlignedSub(|rest|, |child.key|, pageSize);
      assert rest == child.key + rest[|child.key|..];
      if |child.key| < |rest| {
        AlignedGap(|child.key|, |rest|, pageSize);
      }
    }

    /** The descent that `match_prefix` and `_insert_helper` share: follow children while
        whole edges match.  It ends at `node` with `rest` unmatched; if the last edge matched
        only in part, `child` is that edge and `common` the shared length. */
    ghost predicate Descended(k: seq<Token>, node: TreeNode, rest: seq<Token>, child: TreeNode?, common: nat)
      reads this`nodes, nodes`children, nodes`parent, nodes`key, nodes`value, nodes`path, nodes`slots
    {
      && pageSize > 0 && At(node, k, rest) && Aligned(|rest|, pageSize) && (|rest| > 0 ==> |rest| >= pageSize)
      && (child == null ==> |rest| > 0 ==> rest[..pageSize] !in node.children)
      && (child != null ==>
            && child in nodes && child != root && NodeOk(child) && child.parent == node
            && pageSize <= common && common + pageSize <= |child.key|
                 && IsCommonPages(child.key, rest, common, pageSize))
    }

    method Descend(k: seq<Token>)
      returns (value: seq<int>, node: TreeNode, rest: seq<Token>, child: TreeNode?, common: nat)
      requires Shape() && Aligned(|k|, pageSize)
      ensures Descended(k, node, rest, child, common) && value == node.slots
    {
      rest, node, value, child, common := k, root, [], null, 0;
      assert NodeOk(root);
      if |rest| > 0 {
        AlignedGap(0, |rest|, pageSize);
      }
      while |rest| > 0 && FirstPage(rest) in node.children
        invariant At(node, k, rest) && Aligned(|rest|, pageSize) && value == node.slots && child == null
        invariant |rest| > 0 ==> |rest| >= pageSize
        decreases |rest|
      {
        var next := node.children[FirstPage(rest)];
        ChildOfPage(node, FirstPage(rest));
        var prefixLen := KeyMatch(next.key, rest);
        if prefixLen < |next.key| {
          AlignedGap(prefixLen, |next.key|, pageSize);
          child, common := next, prefixLen;
          break;
        }
        PassChild(node, next, k, rest);
        value := value + next.value;
        node := next;
        rest := rest[prefixLen..];
      }
    }

    /** `match_prefix`: the longest stored page-aligned prefix of `key`, its slots, and a node
        that ends exactly there.  The node may have been split off; the map is unchanged. */
    method MatchPrefix(key: seq<Token>) returns (value: seq<int>, node: TreeNode)
      requires Valid()
      modifies this`nodes, nodes`children, nodes`parent, nodes`key, nodes`value
      ensures Valid() && node in nodes && old(nodes) <= nodes && fresh(nodes - old(nodes))
      ensures var k := key[..AlignLen(|key|, pageSize)];
        && IsMatchLen(view, k, pageSize, |value|)
        && node.path == k[..|value|] && node.path in view && view[node.path] == value
    {
      hide Stands, Locks, Sizes, SplitDone, Aligned;
      var k := key[..AlignLen(|key|, pageSize)];
      var rest, child, common;
      value, node, rest, child, common := Descend(k);
      if child == null {
        NoChildStops(node, k, rest);
        assert NodeOk(node);
      } else {
        MismatchStops(node, child, k, rest, common);
        assert NodeOk(node);
        node := SplitNode(child, common);
        value := value + node.value;
      }
    }

    // ---------- Adding a leaf ----------

    twostate predicate LeafAdded(node: TreeNode, new leaf: TreeNode)
      reads this`nodes, nodes`children, nodes`parent, nodes`key, nodes`value, nodes`path, nodes`slots, nodes`lockRef
    {
      && pageSize > 0 && node in old(nodes) && leaf !in old(nodes) && leaf != root && nodes == old(nodes) + {leaf}
      && leaf.parent == node && leaf.children == map[] && leaf.lockRef == 0
      && |leaf.key| == |leaf.value| && |leaf.key| >= pageSize && Aligned(|leaf.key|, pageSize)
      && leaf.path == node.path + leaf.key && leaf.slots == node.slots + leaf.value
      && leaf.key[..pageSize] !in old(node.children)
      && node.children == old(node.children)[leaf.key[..pageSize] := leaf]
      && (forall n | n in old(nodes) ::
            && n.path == old(n.path) && n.slots == old(n.slots) && n.parent == old(n.parent)
            && n.key == old(n.key) && n.value == old(n.value) && n.lockRef == old(n.lockRef))
      && (forall n | n in old(nodes) && n != node :: n.children == old(n.children))
    }

    twostate lemma LeafKeepsShape(node: TreeNode, new leaf: TreeNode)
      requires LeafAdded(node, leaf) && old(Shape())
      ensures Shape()
    {
      forall n | n in nodes
        ensures NodeOk(n)
      {
        if n == leaf {
          assert old(NodeOk(node));
          AlignedAdd(|node.path|, |leaf.key|, pageSize);
        } else {
          assert old(NodeOk(n));
        }
      }
    }

    twostate lemma LeafKeepsLocks(node: TreeNode, new leaf: TreeNode)
      requires LeafAdded(node, leaf) && old(Locks()) && handles == old(handles)
      requires forall h | h in handles :: !(leaf.path <= h)
      ensures Locks()
    {
      forall h | h in handles
        ensures exists n :: n in nodes && n.path == h
      {
        var n :| n in old(nodes) && old(n.path) == h;
        assert n in nodes && n.path == h;
      }
      CountBelowPositive(handles, leaf.path);
    }

    twostate lemma LeafKeepsSizes(node: TreeNode, new leaf: TreeNode)
      requires LeafAdded(node, leaf) && old(Sizes())
      requires evictableSize == old(evictableSize) + |leaf.key| && protectedSize == old(protectedSize)
      ensures Sizes()
    {
      assert NodesWith(true) == old(NodesWith(true));
      assert NodesWith(false) == old(NodesWith(false)) + {leaf};
      KeyTotalWithout(NodesWith(false), leaf);
      assert NodesWith(false) - {leaf} == old(NodesWith(false));
    }

    twostate lemma LeafStands(node: TreeNode, new leaf: TreeNode)
      requires LeafAdded(node, leaf) && old(Stands()) && |leaf.path| == |leaf.slots|
      requires Covers(view, leaf.path, leaf.slots, pageSize)
      requires Inserted(old(view), view, leaf.path, leaf.slots, pageSize, |node.path|)
      ensures Stands()
    {
      forall n | n in old(nodes)
        ensures |n.slots| == |n.path| && Covers(view, n.path, n.slots, pageSize)
      {
        assert old(|n.slots| == |n.path| && Covers(view, n.path, n.slots, pageSize));
        CoversKept(old(view), view, n.path, n.slots, pageSize);
      }
      forall p | p in view
        ensures Aligned(|p|, pageSize) && exists n :: n in nodes && p <= n.path
      {
        if p in old(view) {
          var n :| n in old(nodes) && p <= old(n.path);
          assert n in nodes && p <= n.path;
        } else {
          assert leaf in nodes && p <= leaf.path;
        }
      }
    }

    /** No handle extends a string that is not stored. */
    lemma NoHandleBelow(p: seq<Token>, k: nat)
      requires Valid() && k <= |p| && p[..k] !in view && Aligned(k, pageSize)
      ensures forall h | h in handles :: !(p <= h)
    {
      forall h | h in handles
        ensures !(p <= h)
      {
        var n :| n in nodes && n.path == h;
        SliceOfPrefix(p, h, k);
        if k <= |n.path| {
          StoredAt(n, k);
        }
      }
    }

    /** The tail of `_insert_helper`: hang the unmatched rest of the key below `node`. */
    method AddLeaf(node: TreeNode, rest: seq<Token>, value: seq<int>)
      requires Valid() && node in nodes && |rest| == |value|
      requires |rest| >= pageSize && Aligned(|rest|, pageSize) && rest[..pageSize] !in node.children
      requires IsMatchLen(view, node.path + rest, pageSize, |node.path|)
      modifies this`nodes, this`view, this`evictableSize, node`children
      ensures Valid() && old(nodes) <= nodes && fresh(nodes - old(nodes))
      ensures |node.slots| == |node.path|
      ensures view == AddPages(old(view), node.path + rest, node.slots + value, |node.path|, pageSize)
      ensures evictableSize == old(evictableSize) + |rest|
    {
      hide Stands, Locks, Sizes;
      ghost var key, slots, m := node.path + rest, node.slots + value, |node.path|;
      assert NodeOk(node);
      AlignedAdd(m, pageSize, pageSize);
      NoHandleBelow(key, m + pageSize);
      CoversAt(node);
      assert key[..m] == node.path && slots[..m] == node.slots;
      AddPagesInserts(view, key, slots, m, pageSize);
      CoversInserted(view, AddPages(view, key, slots, m, pageSize), key, slots, m, pageSize);
      LinkLeaf(node, rest, value);
    }

    lemma CoversAt(n: TreeNode)
      requires Shape() && Stands() && n in nodes
      ensures |n.slots| == |n.path| && Covers(view, n.path, n.slots, pageSize)
    {
    }

    method LinkLeaf(node: TreeNode, rest: seq<Token>, value: seq<int>)
      requires Valid() && node in nodes && |rest| == |value| && |node.path| == |node.slots| && pageSize > 0
      requires |rest| >= pageSize && Aligned(|rest|, pageSize) && rest[..pageSize] !in node.children
      requires forall h | h in handles :: !(node.path + rest <= h)
      requires Covers(AddPages(view, node.path + rest, node.slots + value, |node.path|, pageSize),
                      node.path + rest, node.slots + value, pageSize)
      requires Inserted(view, AddPages(view, node.path + rest, node.slots + value, |node.path|, pageSize),
                        node.path + rest, node.slots + value, pageSize, |node.path|)
      modifies this`nodes, this`view, this`evictableSize, node`children
      ensures Valid() && old(nodes) <= nodes && fresh(nodes - old(nodes))
      ensures view == AddPages(old(view), node.path + rest, node.slots + value, |node.path|, pageSize)
      ensures evictableSize == old(evictableSize) + |rest|
    {
      hide Shape, Locks, Sizes, Stands, AddPages, Inserted, NodeOk, Covers;
      var leaf := new TreeNode.Under(node, rest, value, 0, map[]);
      node.children := node.children[FirstPage(rest) := leaf];
      evictableSize := evictableSize + |rest|;
      nodes := nodes + {leaf};
      view := AddPages(view, node.path + rest, node.slots + value, |node.path|, pageSize);
      LeafKeepsShape(node, leaf);
      LeafKeepsLocks(node, leaf);
      LeafKeepsSizes(node, leaf);
      LeafStands(node, leaf);
    }

    /** Where an insertion of `k` hangs its new leaf: at `node`, whose path is the longest
        stored prefix, with no child for the next page. */
    ghost predicate InsertPoint(k: seq<Token>, node: TreeNode, matched: nat)
      reads this`nodes, this`view, nodes`children, nodes`path, nodes`slots
    {
      && pageSize > 0 && node in nodes && matched == |node.path| == |node.slots| <= |k| && node.path == k[..matched]
      && IsMatchLen(view, k, pageSize, matched) && node.path in view && view[node.path] == node.slots
      && (|k| > matched ==>
            && |k| - matched >= pageSize && Aligned(|k| - matched, pageSize)
            && k[matched..][..pageSize] !in node.children)
    }

    method FindInsertPoint(k: seq<Token>) returns (node: TreeNode, matched: nat)
      requires Valid() && Aligned(|k|, pageSize)
      modifies this`nodes, nodes`children, nodes`parent, nodes`key, nodes`value
      ensures Valid() && old(nodes) <= nodes && fresh(nodes - old(nodes)) && InsertPoint(k, node, matched)
    {
      hide Stands, Locks, Sizes;
      var value, rest, child, common;
      value, node, rest, child, common := Descend(k);
      matched := |k| - |rest|;
      if child == null {
        assert NodeOk(node);
        NoChildStops(node, k, rest);
        assert k[matched..] == rest;
      } else {
        node := SplitForInsert(k, node, rest, child, common);
        matched := matched + common;
      }
    }

    method SplitForInsert(k: seq<Token>, parent: TreeNode, rest: seq<Token>, child: TreeNode, common: nat)
      returns (node: TreeNode)
      requires Valid() && Descended(k, parent, rest, child, common)
      modifies this`nodes, child`children, child`parent, child`key, child`value, child.parent`children
      ensures Valid() && old(nodes) <= nodes && fresh(nodes - old(nodes))
      ensures InsertPoint(k, node, |k| - |rest| + common)
    {
      hide Stands, Locks, Sizes, SplitDone, Aligned;
      assert NodeOk(parent);
      MismatchStops(parent, child, k, rest, common);
      RestAfterSplit(k, parent.path, rest, common, child.key);
      node := SplitNode(child, common);
    }

    lemma RestAfterSplit(k: seq<Token>, path: seq<Token>, rest: seq<Token>, common: nat, childKey: seq<Token>)
      requires pageSize > 0 && k == path + rest && Aligned(|rest|, pageSize)
      requires IsCommonPages(childKey, rest, common, pageSize) && common + pageSize <= |childKey|
      ensures k[|path| + common..] == rest[common..] && Aligned(|rest| - common, pageSize)
      ensures |rest| > common ==>
        && |rest| - common >= pageSize
        && rest[common..][..pageSize] != childKey[common..][..pageSize]
    {
      AlignedSub(|rest|, common, pageSize);
      if |rest| > common {
        AlignedGap(common, |rest|, pageSize);
        assert rest[common..][..pageSize] == rest[common..common + pageSize];
        assert childKey[common..][..pageSize] == childKey[common..common + pageSize];
      }
    }

    /** `insert`: stores the page-aligned part of the key and returns how much of it was
        already stored.  Exactly the missing prefixes are added, with the given slots; prefixes
        stored before keep theirs. */
    method Insert(key: seq<Token>, value: Option<seq<int>>) returns (total: nat)
      requires Valid() && (value.Some? ==> |value.value| == |key|)
      modifies this`nodes, this`view, this`evictableSize, nodes`children, nodes`parent, nodes`key, nodes`value
      ensures Valid() && old(nodes) <= nodes && fresh(nodes - old(nodes))
      ensures var k := key[..AlignLen(|key|, pageSize)];
        var v := (if value.Some? then value.value else key)[..AlignLen(|key|, pageSize)];
        && IsMatchLen(old(view), k, pageSize, total) && |old(view)[k[..total]]| == total
        && view == AddPages(old(view), k, old(view)[k[..total]] + v[total..], total, pageSize)
        && evictableSize == old(evictableSize) + |k| - total
    {
      hide Shape, Stands, Locks, Sizes, NodeOk, AddPages;
      assert pageSize > 0 by { PageSizePositive(); }
      var aligned := AlignLen(|key|, pageSize);
      var k, v := key[..aligned], (if value.Some? then value.value else key)[..aligned];
      var node;
      node, total := FindInsertPoint(k);
      NothingToAdd(view, k, node.slots + v[total..], total, pageSize);
      if total < aligned {
        assert node.path + k[total..] == k;
        AddLeaf(node, k[total..], v[total..]);
      }
    }

    lemma PageSizePositive()
      requires Shape()
      ensures pageSize > 0
    {
    }

    lemma NothingToAdd(v: View, key: seq<Token>, slots: seq<int>, m: nat, ps: nat)
      requires ps > 0 && |key| == |slots| && m <= |key|
      ensures m == |key| ==> AddPages(v, key, slots, m, ps) == v
    {
    }

    // ---------- Locking ----------

    /** Moving a node from one set to another moves its key length. */
    lemma MoveNode(from: set<TreeNode>, to: set<TreeNode>, n: TreeNode)
      requires n in from && n !in to
      ensures KeyTotal(from - {n}) == KeyTotal(from) - |n.key|
      ensures KeyTotal(to + {n}) == KeyTotal(to) + |n.key|
    {
      KeyTotalWithout(from, n);
      KeyTotalWithout(to + {n}, n);
      assert to + {n} - {n} == to;
    }

    /** One step of `inc_lock_ref`: the counters move the key from evictable to protected when
        the node was unlocked. */
    method LockNode(n: TreeNode) returns (delta: int)
      requires Sizes() && n in nodes && n != root && n.lockRef >= 0
      modifies n`lockRef, this`evictableSize, this`protectedSize
      ensures Sizes() && n.lockRef == old(n.lockRef) + 1
      ensures delta == evictableSize - old(evictableSize) == old(protectedSize) - protectedSize
    {
      delta := 0;
      ghost var unlocked, locked := NodesWith(false), NodesWith(true);
      if n.lockRef == 0 {
        MoveNode(unlocked, locked, n);
        evictableSize := evictableSize - |n.key|;
        protectedSize := protectedSize + |n.key|;
        delta := delta - |n.key|;
        unlocked, locked := unlocked - {n}, locked + {n};
      }
      n.lockRef := n.lockRef + 1;
      assert NodesWith(false) == unlocked;
      assert NodesWith(true) == locked;
    }

    /** One step of `dec_lock_ref`. */
    method UnlockNode(n: TreeNode) returns (delta: int)
      requires Sizes() && n in nodes && n != root && n.lockRef >= 1
      modifies n`lockRef, this`evictableSize, this`protectedSize
      ensures Sizes() && n.lockRef == old(n.lockRef) - 1
      ensures delta == evictableSize - old(evictableSize) == old(protectedSize) - protectedSize
    {
      delta := 0;
      ghost var unlocked, locked := NodesWith(false), NodesWith(true);
      if n.lockRef == 1 {
        MoveNode(locked, unlocked, n);
        evictableSize := evictableSize + |n.key|;
        protectedSize := protectedSize - |n.key|;
        delta := delta + |n.key|;
        unlocked, locked := unlocked + {n}, locked - {n};
      }
      n.lockRef := n.lockRef - 1;
      assert NodesWith(false) == unlocked;
      assert NodesWith(true) == locked;
    }

    /** Only `cur` lies between `cur.parent` and `cur` on the way to the root. */
    lemma NothingBetween(cur: TreeNode, node: TreeNode, m: TreeNode)
      requires Shape() && cur in nodes && node in nodes && m in nodes && cur != root && m != root
      requires NodeOk(cur) && cur.path <= node.path && m.path <= node.path
      requires |cur.parent.path| < |m.path| <= |cur.path|
      ensures m == cur
    {
      assert m.path <= cur.path;
      assert NodeOk(m) && NodeOk(cur.parent);
      EdgePage(cur);
      EdgePage(m);
      AlignedGap(|cur.parent.path|, |m.path|, pageSize);
      Agree(m.path, cur.path, |m.path|, |cur.parent.path| + pageSize);
      EdgeUnique(cur, m);
    }

    /** The nodes on the way from `cur` (exclusive) down to `node` are those whose path is a
        prefix of `node`'s and longer than `cur`'s; stepping up adds exactly `cur`. */
    lemma StepUp(cur: TreeNode, node: TreeNode)
      requires Shape() && cur in nodes && node in nodes && cur != root && cur.path <= node.path && NodeOk(cur)
      ensures cur.parent in nodes && cur.parent.path <= node.path && |cur.parent.path| < |cur.path|
      ensures forall m | m in nodes && m != root && m != cur && m.path <= node.path ::
                |m.path| > |cur.parent.path| <==> |m.path| > |cur.path|
    {
      EdgePage(cur);
      PrefixTrans(cur.parent.path, cur.path, node.path);
      forall m | m in nodes && m != root && m != cur && m.path <= node.path
        ensures |m.path| > |cur.parent.path| <==> |m.path| > |cur.path|
      {
        if |cur.parent.path| < |m.path| <= |cur.path| {
          NothingBetween(cur, node, m);
        }
      }
    }

    lemma PathsNonEmpty()
      requires Shape()
      ensures root.path == [] && forall m | m in nodes && m != root :: |m.path| > 0
    {
      forall m | m in nodes && m != root
        ensures |m.path| > 0
      {
        assert NodeOk(m);
      }
    }

    /** `inc_lock_ref`: one more handle at `node`; every ancestor's count goes up by one. */
    method IncLockRef(node: TreeNode) returns (delta: int)
      requires Valid() && node in nodes
      modifies this`handles, this`evictableSize, this`protectedSize, nodes`lockRef
      ensures Valid() && handles == [node.path] + old(handles)
      ensures delta == evictableSize - old(evictableSize) == old(protectedSize) - protectedSize
    {
      hide Stands, Sizes, Aligned;
      delta := 0;
      var cur := node;
      while cur != root
        invariant cur in nodes && cur.path <= node.path && Sizes() && root.lockRef == 1 && handles == old(handles)
        invariant delta == evictableSize - old(evictableSize) == old(protectedSize) - protectedSize
        invariant forall m | m in nodes && m != root ::
          m.lockRef == old(m.lockRef) + (if m.path <= node.path && |m.path| > |cur.path| then 1 else 0)
        decreases |cur.path|
      {
        assert NodeOk(cur);
        StepUp(cur, node);
        assert cur.lockRef == old(cur.lockRef) == CountBelow(handles, cur.path);
        var d := LockNode(cur);
        delta := delta + d;
        cur := cur.parent;
      }
      PathsNonEmpty();
      ghost var before := handles;
      handles := [node.path] + handles;
      assert handles[1..] == before;
      assert node.path in handles && forall h | h in handles :: h == node.path || h in before;
    }

    /** `dec_lock_ref`: gives back one handle at `node`.  Every count on the way up is positive,
        so the walk reaches the root. */
    method DecLockRef(node: TreeNode) returns (delta: int)
      requires Valid() && node in nodes && node.path in handles
      modifies this`handles, this`evictableSize, this`protectedSize, nodes`lockRef
      ensures Valid() && multiset(handles) == multiset(old(handles)) - multiset{node.path}
      ensures delta == evictableSize - old(evictableSize) == old(protectedSize) - protectedSize
    {
      hide Stands, Sizes, Aligned;
      delta := 0;
      var cur := node;
      while cur != root
        invariant cur in nodes && cur.path <= node.path && Sizes() && root.lockRef == 1 && handles == old(handles)
        invariant delta == evictableSize - old(evictableSize) == old(protectedSize) - protectedSize
        invariant forall m | m in nodes && m != root ::
          m.lockRef == old(m.lockRef) - (if m.path <= node.path && |m.path| > |cur.path| then 1 else 0)
        decreases |cur.path|
      {
        assert NodeOk(cur);
        StepUp(cur, node);
        CountBelowPositive(handles, cur.path);
        assert cur.lockRef == old(cur.lockRef) == CountBelow(handles, cur.path);
        var d := UnlockNode(cur);
        delta := delta + d;
        cur := cur.parent;
      }
      PathsNonEmpty();
      handles := RemoveHandle(handles, node.path);
    }

    // ---------- Eviction ----------

    ghost predicate IsUnlockedLeaf(n: TreeNode)
      reads this`nodes, n`children, n`lockRef
    {
      n in nodes && n != root && n.children == map[] && n.lockRef == 0
    }

    /** `_collect_leaves`: a walk over the whole tree that keeps the unlocked leaves. */
    method CollectLeaves() returns (leaves: set<TreeNode>)
      requires Shape()
      ensures forall n :: n in leaves <==> IsUnlockedLeaf(n)
    {
      leaves := {};
      assert NodeOk(root);
      var stack: set<TreeNode> := root.children.Values;
      ghost var visited: set<TreeNode> := {};
      while stack != {}
        invariant stack <= nodes - {root} && visited <= nodes - {root} && stack !! visited
        invariant forall n | n in nodes && n != root && NodeOk(n) ::
          (n.parent == root || n.parent in visited) <==> (n in stack || n in visited)
        invariant forall n :: n in leaves <==> n in visited && IsUnlockedLeaf(n)
        decreases nodes - visited
      {
        var cur :| cur in stack;
        assert NodeOk(cur);
        stack := stack - {cur};
        if cur.children == map[] {
          if cur.lockRef == 0 {
            leaves := leaves + {cur};
          }
        } else {
          stack := stack + cur.children.Values;
        }
        visited := visited + {cur};
      }
      AllVisited(visited);
    }

    lemma AllVisited(visited: set<TreeNode>)
      requires Shape() && visited <= nodes - {root}
      requires forall n | n in nodes && n != root && NodeOk(n) :: (n.parent == root || n.parent in visited) <==>
          n in visited
      ensures visited == nodes - {root}
    {
      forall n | n in nodes && n != root
        ensures n in visited
      {
        VisitedFromRoot(visited, n);
      }
    }

    lemma {:induction false} VisitedFromRoot(visited: set<TreeNode>, n: TreeNode)
      requires Shape() && visited <= nodes - {root} && n in nodes && n != root
      requires forall n | n in nodes && n != root && NodeOk(n) :: (n.parent == root || n.parent in visited) <==>
          n in visited
      ensures n in visited
      decreases |n.path|
    {
      assert NodeOk(n);
      if n.parent != root {
        VisitedFromRoot(visited, n.parent);
      }
    }

    twostate predicate LeafRemoved(x: TreeNode)
      reads this`nodes, nodes`children, nodes`parent, nodes`key, nodes`value, nodes`path, nodes`slots, nodes`lockRef, x
    {
      && pageSize > 0 && x in old(nodes) && x != root && nodes == old(nodes) - {x} && x.children == map[]
      && x.parent != null && x.parent in nodes && x.lockRef == 0 && |x.key| >= pageSize
      && x.path == old(x.path) && x.slots == old(x.slots) && x.key == old(x.key) && x.parent == old(x.parent)
      && x.lockRef == old(x.lockRef) && x.children == old(x.children)
      && x.parent.children == old(x.parent.children) - {x.key[..pageSize]}
      && (forall n | n in nodes ::
            && n.path == old(n.path) && n.slots == old(n.slots) && n.parent == old(n.parent)
            && n.key == old(n.key) && n.value == old(n.value) && n.lockRef == old(n.lockRef))
      && (forall n | n in nodes && n != x.parent :: n.children == old(n.children))
    }

    twostate lemma RemovalKeepsShape(x: TreeNode)
      requires LeafRemoved(x) && old(Shape())
      ensures Shape()
    {
      assert old(NodeOk(x));
      forall n | n in nodes
        ensures NodeOk(n)
      {
        assert old(NodeOk(n));
      }
    }

    twostate lemma RemovalKeepsLocks(x: TreeNode)
      requires LeafRemoved(x) && old(Locks()) && handles == old(handles)
      ensures Locks()
    {
      CountBelowPositive(handles, x.path);
      forall h | h in handles
        ensures exists n :: n in nodes && n.path == h
      {
        var n :| n in old(nodes) && old(n.path) == h;
        assert n != x;
        assert n in nodes && n.path == h;
      }
    }

    twostate lemma RemovalKeepsSizes(x: TreeNode)
      requires LeafRemoved(x) && old(Sizes())
      requires old(KeyTotal(NodesWith(false))) == |x.key| + old(KeyTotal(NodesWith(false) - {x}))
      requires evictableSize == old(evictableSize) - |x.key| && protectedSize == old(protectedSize)
      ensures Sizes()
    {
      assert NodesWith(false) == old(NodesWith(false)) - {x};
      assert NodesWith(true) == old(NodesWith(true));
    }

    twostate lemma RemovalStands(x: TreeNode)
      requires LeafRemoved(x) && old(Stands())
      requires view == old(view) - EdgeEntries(x.path, |x.parent.path|, pageSize)
      requires forall n, e | n in nodes && e in EdgeEntries(x.path, |x.parent.path|, pageSize) :: !(e <= n.path)
      requires x.parent.path <= x.path && |x.parent.path| <= |x.path|
      ensures Stands()
    {
      var gone := EdgeEntries(x.path, |x.parent.path|, pageSize);
      forall n | n in nodes
        ensures |n.slots| == |n.path| && Covers(view, n.path, n.slots, pageSize)
      {
        assert old(|n.slots| == |n.path| && Covers(view, n.path, n.slots, pageSize));
        forall k: nat | k <= |n.path| && Aligned(k, pageSize)
          ensures n.path[..k] in view && view[n.path[..k]] == n.slots[..k]
        {
          assert n.path[..k] <= n.path;
        }
      }
      forall p | p in view
        ensures Aligned(|p|, pageSize) && exists n :: n in nodes && p <= n.path
      {
        var n :| n in old(nodes) && p <= old(n.path);
        if n == x {
          assert p == x.path[..|p|];
          assert p <= x.parent.path;
          assert x.parent in nodes;
        } else {
          assert n in nodes && p <= n.path;
        }
      }
    }

    /** The entries on a leaf's edge are stored for that leaf alone. */
    lemma LeafEntriesPrivate(x: TreeNode)
      requires Shape() && x in nodes && x != root && x.children == map[] && NodeOk(x)
      ensures forall n, e | n in nodes && n != x && e in EdgeEntries(x.path, |x.parent.path|, pageSize) ::
          !(e <= n.path)
    {
      EdgePage(x);
      forall n, e | n in nodes && n != x && e in EdgeEntries(x.path, |x.parent.path|, pageSize)
        ensures !(e <= n.path)
      {
        var k: nat :| |x.parent.path| < k <= |x.path| && Aligned(k, pageSize) && e == x.path[..k];
        AlignedGap(|x.parent.path|, k, pageSize);
        EntryNotShared(x, n, k);
      }
    }

    lemma EntryNotShared(x: TreeNode, n: TreeNode, k: nat)
      requires Shape() && x in nodes && x != root && x.children == map[] && NodeOk(x) && n in nodes && n != x
      requires |x.parent.path| + pageSize <= k <= |x.path|
      ensures !(x.path[..k] <= n.path)
    {
      if x.path[..k] <= n.path {
        assert n.path != [];
        EdgePage(x);
        EdgePage(n);
        Agree(n.path, x.path, k, |x.parent.path| + pageSize);
        EdgeUnique(x, n);
        ChildForPage(x, n);
      }
    }

    /** `_delete_leaf`: the entries on the leaf's edge disappear, nothing else changes. */
    method DeleteLeaf(x: TreeNode)
      requires Valid() && IsUnlockedLeaf(x) && NodeOk(x)
      modifies this`nodes, this`view, this`evictableSize, x.parent`children
      ensures Valid() && nodes == old(nodes) - {x} && x.parent in nodes
      ensures evictableSize == old(evictableSize) - |x.key|
      ensures view == old(view) - EdgeEntries(x.path, |x.parent.path|, pageSize)
    {
      LeafEntriesPrivate(x);
      EdgePage(x);
      KeyTotalWithout(NodesWith(false), x);
      RemoveFields(x);
      RemovalKeepsShape(x);
      RemovalKeepsLocks(x);
      RemovalKeepsSizes(x);
      RemovalStands(x);
    }

    method RemoveFields(x: TreeNode)
      requires Shape() && IsUnlockedLeaf(x) && NodeOk(x)
      modifies this`nodes, this`view, this`evictableSize, x.parent`children
      ensures LeafRemoved(x) && evictableSize == old(evictableSize) - |x.key|
      ensures view == old(view) - EdgeEntries(x.path, |x.parent.path|, pageSize)
    {
      EdgePage(x);
      x.parent.children := x.parent.children - {FirstPage(x.key)};
      evictableSize := evictableSize - |x.key|;
      nodes := nodes - {x};
      view := view - EdgeEntries(x.path, |x.parent.path|, pageSize);
    }

    /** Below an unlocked node everything is unlocked, so some unlocked leaf exists. */
    lemma {:induction false} UnlockedLeafBelow(n: TreeNode)
      requires Shape() && Locks() && n in nodes && n != root && n.lockRef == 0
      ensures exists x :: IsUnlockedLeaf(x)
      decreases set m | m in nodes && |m.path| > |n.path|
    {
      assert NodeOk(n);
      if n.children == map[] {
        assert IsUnlockedLeaf(n);
      } else {
        var page :| page in n.children;
        var c := n.children[page];
        assert NodeOk(c);
        CountBelowMonotone(handles, n.path, c.path);
        assert |c.path| > |n.path|;
        ghost var below := set m | m in nodes && |m.path| > |n.path|;
        assert c in below && (set m | m in nodes && |m.path| > |c.path|) <= below - {c};
        UnlockedLeafBelow(c);
      }
    }

    lemma NoUnlockedLeft()
      requires Valid() && forall x :: !IsUnlockedLeaf(x)
      ensures evictableSize == 0 && forall n | n in nodes :: n.lockRef > 0
    {
      forall n | n in nodes
        ensures n.lockRef > 0
      {
        if n != root && n.lockRef == 0 {
          UnlockedLeafBelow(n);
        }
      }
      assert NodesWith(false) == {};
    }

    /** The cache and the allocator share out the pages: the cache owns the pages of its
        entries, and none of them is free. */
    ghost predicate Owns()
      reads this`view, allocator
    {
      && pageSize > 0 && allocator.Valid() && allocator.pageSize == pageSize
      && OwnsPages(view, pageSize, allocator.numPages)
      && StoredPages(view, pageSize) !! Elements(allocator.freePages)
    }

    /** Pages that are free or owned by the cache. */
    ghost function FreeOrStored(): set<int>
      requires pageSize > 0
      reads this`view, allocator
    {
      Elements(allocator.freePages) + StoredPages(view, pageSize)
    }

    /** Freeing one unlocked leaf returns exactly its slots: no page is lost or returned twice. */
    method EvictLeaf(x: TreeNode)
      requires Valid() && Owns() && allocator.isNotInFreeGroup && IsUnlockedLeaf(x) && NodeOk(x)
      modifies this`nodes, this`view, this`evictableSize, x.parent`children, allocator
      ensures Valid() && Owns() && allocator.isNotInFreeGroup && nodes == old(nodes) - {x} && x.parent in nodes
      ensures evictableSize == old(evictableSize) - |x.key|
      ensures allocator.AvailableSize() == old(allocator.AvailableSize()) + |x.key|
      ensures FreeOrStored() == old(FreeOrStored())
      ensures forall p | p in view :: p in old(view) && view[p] == old(view)[p]
    {
      hide Shape, Locks, Sizes, Stands, OwnsPages, Covers, EdgeEntries, Aligned, FreeInto;
      ghost var a, path, slots := |x.parent.path|, x.path, x.slots;
      LeafPages(x);
      allocator.Free(x.value);
      DeleteLeaf(x);
      ViewWellFormed();
      RemoveEdge(old(view), view, path, slots, a, pageSize, allocator.numPages);
    }

    /** What freeing a leaf's slots does to the free list. */
    lemma LeafPages(x: TreeNode)
      requires Valid() && Owns() && x in nodes && x != root && NodeOk(x)
      ensures |x.slots| == |x.path| && Covers(view, x.path, x.slots, pageSize)
      ensures |x.parent.path| <= |x.path| && Aligned(|x.parent.path|, pageSize) && Aligned(|x.path|, pageSize)
      ensures var free' := FreeInto(allocator.freePages, x.value, pageSize, allocator.numPages);
        && Elements(free') == Elements(allocator.freePages) + EdgePages(x.slots, |x.parent.path|, |x.path|, pageSize)
        && |free'| * pageSize == |allocator.freePages| * pageSize + |x.key|
    {
      hide Locks, Sizes;
      var a := |x.parent.path|;
      CoversAt(x);
      EdgePage(x);
      assert x.slots[a..] == x.value;
      var free, free' := allocator.freePages, FreeInto(allocator.freePages, x.value, pageSize, allocator.numPages);
      FreeEdge(view, x.path, x.slots, a, free, pageSize, allocator.numPages);
      PagesTimesSize(|free'|, |free|, a, |x.path|, pageSize);
    }

    /** `evict`: frees unlocked leaves until enough slots came back.  It frees at least
        `numTokens` slots whenever that many are unlocked, and if it falls short nothing
        unlocked is left.  Without the node freed last, `last`, it would not have freed enough, and
        when nothing is asked for nothing changes.  Locked prefixes stay, and no page is lost. */
    method Evict(numTokens: int) returns (ghost last: TreeNode?)
      requires Valid() && Owns() && allocator.isNotInFreeGroup
      modifies this`nodes, this`view, this`evictableSize, nodes`children, allocator
      ensures Valid() && Owns() && allocator.isNotInFreeGroup && nodes <= old(nodes)
      ensures allocator.AvailableSize() - old(allocator.AvailableSize()) == old(evictableSize) - evictableSize >= 0
      ensures numTokens <= old(evictableSize) ==>
          allocator.AvailableSize() >= old(allocator.AvailableSize()) + numTokens
      ensures allocator.AvailableSize() - old(allocator.AvailableSize()) < numTokens ==>
        evictableSize == 0 && forall n | n in nodes :: n.lockRef > 0
      ensures numTokens <= 0 ==> last == null
      ensures last == null ==>
          nodes == old(nodes) && view == old(view) && allocator.freePages == old(allocator.freePages)
      ensures last != null ==>
        && last in old(nodes) && last !in nodes && last.lockRef == 0 && Aligned(|last.key|, pageSize)
        && allocator.AvailableSize() - old(allocator.AvailableSize()) - |last.key| < numTokens
      ensures FreeOrStored() == old(FreeOrStored())
      ensures forall p | p in view :: p in old(view) && view[p] == old(view)[p]
      ensures forall h | h in handles :: h in view
    {
      hide Stands, Sizes, Owns, OwnsPages, Shape, FreeOrStored, IsUnlockedLeaf, Locks, Aligned;
      PageSizePositive();
      last := null;
      var heap := CollectLeaves();
      LeavesAre(heap);
      var numEvicted := 0;
      while numEvicted < numTokens && heap != {}
        invariant Valid() && Owns() && allocator.isNotInFreeGroup && nodes <= old(nodes)
        invariant AreLeaves(heap)
        invariant numEvicted == allocator.AvailableSize() - old(allocator.AvailableSize())
               == old(evictableSize) - evictableSize >= 0
        invariant numTokens <= 0 ==> last == null
        invariant last == null ==>
            nodes == old(nodes) && view == old(view) && allocator.freePages == old(allocator.freePages)
        invariant last != null ==>
          && last in old(nodes) && last !in nodes && last.lockRef == 0 && Aligned(|last.key|, pageSize)
          && numEvicted - |last.key| < numTokens
        invariant FreeOrStored() == old(FreeOrStored())
        invariant forall p | p in view :: p in old(view) && view[p] == old(view)[p]
        decreases nodes
      {
        var gained;
        heap, gained, last := EvictNext(heap);
        numEvicted := numEvicted + gained;
      }
      LeavesAre(heap);
      if heap == {} {
        NoUnlockedLeft();
      }
      HandlesStored();
    }

    /** The unlocked leaves are the nodes of `heap`. */
    ghost predicate AreLeaves(heap: set<TreeNode>)
      reads this`nodes, nodes`children, nodes`lockRef
    {
      heap <= nodes && forall n | n in nodes :: n in heap <==> IsUnlockedLeaf(n)
    }

    /** One round of the eviction loop: pop a leaf, free it, and push its parent if that has
        become an unlocked leaf. */
    method EvictNext(heap: set<TreeNode>) returns (rest: set<TreeNode>, gained: int, ghost freed: TreeNode)
      requires Valid() && Owns() && allocator.isNotInFreeGroup && heap != {} && AreLeaves(heap)
      modifies this`nodes, this`view, this`evictableSize, nodes`children, allocator
      ensures Valid() && Owns() && allocator.isNotInFreeGroup && nodes < old(nodes) && AreLeaves(rest)
      ensures gained == allocator.AvailableSize() - old(allocator.AvailableSize())
          == old(evictableSize) - evictableSize == |freed.key|
      ensures freed in old(nodes) && nodes == old(nodes) - {freed} && freed.lockRef == 0
      ensures Aligned(|freed.key|, pageSize)
      ensures pageSize > 0 && FreeOrStored() == old(FreeOrStored())
      ensures forall p | p in view :: p in old(view) && view[p] == old(view)[p]
    {
      hide Stands, Sizes, Owns, OwnsPages, Shape, FreeOrStored, Aligned, Locks, NodeOk;
      var x :| x in heap;
      assert IsUnlockedLeaf(x);
      NodesOk();
      LeafKey(x);
      freed := x;
      var available := allocator.AvailableSize();
      rest := PopLeaf(x, heap);
      gained := allocator.AvailableSize() - available;
      if gained < 0 {
        gained := 0;
      }
    }

    lemma LeavesAre(heap: set<TreeNode>)
      ensures AreLeaves(heap) <==> forall n :: n in heap <==> IsUnlockedLeaf(n)
    {
    }

    method PopLeaf(x: TreeNode, heap: set<TreeNode>) returns (rest: set<TreeNode>)
      requires Valid() && Owns() && allocator.isNotInFreeGroup && IsUnlockedLeaf(x) && NodeOk(x) && AreLeaves(heap)
      modifies this`nodes, this`view, this`evictableSize, nodes`children, allocator
      ensures Valid() && Owns() && allocator.isNotInFreeGroup && nodes == old(nodes) - {x}
      ensures evictableSize == old(evictableSize) - |x.key|
      ensures allocator.AvailableSize() == old(allocator.AvailableSize()) + |x.key|
      ensures FreeOrStored() == old(FreeOrStored()) && AreLeaves(rest)
      ensures forall p | p in view :: p in old(view) && view[p] == old(view)[p]
    {
      hide Stands, Sizes, Owns, OwnsPages, Shape, FreeOrStored, Aligned, Locks, NodeOk;
      ParentOfLeaf(x);
      RootLocked();
      var parent: TreeNode := x.parent;
      EvictLeaf(x);
      RootLocked();
      rest := heap - {x};
      if parent.children == map[] && parent.lockRef == 0 {
        rest := rest + {parent};
      }
      forall n | n in nodes
        ensures n in rest <==> IsUnlockedLeaf(n)
      {
        assert n != parent ==> (old(IsUnlockedLeaf(n)) <==> n in heap);
      }
    }

    lemma ParentOfLeaf(x: TreeNode)
      requires Shape() && x in nodes && x != root && NodeOk(x)
      ensures x.parent != null && x.parent in nodes && x.parent.children != map[]
    {
      assert FirstPage(x.key) in x.parent.children;
    }

    lemma RootLocked()
      requires Locks()
      ensures root.lockRef == 1
    {
    }

    lemma LeafKey(x: TreeNode)
      requires Shape() && x in nodes && x != root && NodeOk(x)
      ensures Aligned(|x.key|, pageSize)
    {
      EdgePage(x);
    }

    lemma NodesOk()
      requires Shape()
      ensures pageSize > 0 && forall n | n in nodes :: NodeOk(n)
    {
    }

    lemma HandlesStored()
      requires Valid()
      ensures forall h | h in handles :: h in view
    {
      forall h | h in handles
        ensures h in view
      {
        var n :| n in nodes && n.path == h;
        assert NodeOk(n);
        StoredAt(n, |n.path|);
        assert n.path[..|n.path|] == n.path;
      }
    }

    lemma ValidShape()
      requires Valid()
      ensures Shape()
    {
    }

    lemma PathsUnique()
      requires Shape()
      ensures forall a, b | a in nodes && b in nodes && a.path == b.path :: a == b
    {
      forall a, b | a in nodes && b in nodes && a.path == b.path
        ensures a == b
      {
        SamePath(a, b);
      }
    }

    lemma HandleHasNode(h: seq<Token>) returns (n: TreeNode)
      requires Valid() && h in handles
      ensures n in nodes && n.path == h
    {
      n :| n in nodes && n.path == h;
    }
  }
}
