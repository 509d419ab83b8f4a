/** Which KV pages the prefix cache owns.  Every stored string owns the page that holds its
    last `ps` tokens. */
module PageOwnership {
  import opened Pages
  import opened Orders
  import opened PrefixMap
  import opened PagedMemory

  /** The page of the last tokens of a stored string. */
  ghost function PageOf(v: View, p: seq<Token>, ps: nat): int
    requires ps > 0 && p in v && p != [] && |v[p]| == |p|
  {
    v[p][|p| - 1] / ps
  }

  /** The tokens of one page of a string lie in one page of memory; different strings own
      different pages; every page is a real one. */
  ghost predicate OwnsPages(v: View, ps: nat, numPages: nat)
    requires ps > 0
  {
    && WellFormed(v, ps)
    && (forall p, i | p in v && p != [] && |p| - ps <= i < |p| && 0 <= i :: v[p][i] / ps == PageOf(v, p, ps))
    && (forall p, q | p in v && q in v && p != [] && q != [] && PageOf(v, p, ps) == PageOf(v, q, ps) :: p == q)
    && (forall p | p in v && p != [] :: 1 <= PageOf(v, p, ps) <= numPages)
  }

  ghost function StoredPages(v: View, ps: nat): set<int>
    requires ps > 0
  {
    set p | p in v && p != [] && |v[p]| == |p| :: PageOf(v, p, ps)
  }

  // ---------- Removing the edge of a leaf ----------

  /** The entries that live on the edge from length `a` to the end of `path`. */
  ghost function EdgeEntries(path: seq<Token>, a: nat, ps: nat): set<seq<Token>>
    requires ps > 0
  {
    set k: nat | a < k <= |path| && Aligned(k, ps) :: path[..k]
  }

  /** The pages on the edge up to length `k`, page by page. */
  ghost function EdgePages(slots: seq<int>, a: nat, k: nat, ps: nat): set<int>
    requires ps > 0 && k <= |slots|
    decreases k
  {
    if k <= a || k < ps then {} else EdgePages(slots, a, k - ps, ps) + {slots[k - 1] / ps}
  }

  /** `j` ends a page of the edge that lies in memory page `page`. */
  ghost predicate EndsPage(slots: seq<int>, a: nat, k: nat, ps: nat, page: int, j: nat)
    requires ps > 0 && k <= |slots|
  {
    a < j <= k && Aligned(j, ps) && slots[j - 1] / ps == page
  }

  lemma {:induction false} EdgePagesMember(slots: seq<int>, a: nat, k: nat, ps: nat, page: int)
    requires ps > 0 && a <= k <= |slots| && Aligned(a, ps) && Aligned(k, ps)
    ensures page in EdgePages(slots, a, k, ps) <==> exists j: nat :: EndsPage(slots, a, k, ps, page, j)
    decreases k
  {
    if k > a {
      AlignedGap(a, k, ps);
      EdgePagesMember(slots, a, k - ps, ps, page);
      if j: nat :| EndsPage(slots, a, k, ps, page, j) {
        if j < k {
          AlignedGap(j, k, ps);
          assert EndsPage(slots, a, k - ps, ps, page, j);
        }
      }
      if page in EdgePages(slots, a, k - ps, ps) {
        var j: nat :| EndsPage(slots, a, k - ps, ps, page, j);
        assert EndsPage(slots, a, k, ps, page, j);
      }
      if slots[k - 1] / ps == page {
        assert EndsPage(slots, a, k, ps, page, k);
      }
    }
  }

  lemma EntryPage(v: View, path: seq<Token>, slots: seq<int>, j: nat, ps: nat)
    requires ps > 0 && |path| == |slots| && Covers(v, path, slots, ps) && 0 < j <= |path| && Aligned(j, ps)
    ensures path[..j] in v && v[path[..j]] == slots[..j]
    ensures PageOf(v, path[..j], ps) == slots[j - 1] / ps
  {
    assert v[path[..j]] == slots[..j];
  }

  /** Different positions of one stored path own different pages. */
  lemma EntriesDiffer(v: View, path: seq<Token>, slots: seq<int>, j: nat, k: nat, ps: nat, numPages: nat)
    requires ps > 0 && OwnsPages(v, ps, numPages) && |path| == |slots| && Covers(v, path, slots, ps)
    requires 0 < j < k <= |path| && Aligned(j, ps) && Aligned(k, ps)
    ensures slots[j - 1] / ps != slots[k - 1] / ps
  {
    EntryPage(v, path, slots, j, ps);
    EntryPage(v, path, slots, k, ps);
    assert |path[..j]| != |path[..k]|;
  }

  lemma EdgePageIsNew(v: View, path: seq<Token>, slots: seq<int>, a: nat, k: nat, ps: nat, numPages: nat)
    requires ps > 0 && OwnsPages(v, ps, numPages) && |path| == |slots| && Covers(v, path, slots, ps)
    requires a + ps <= k <= |path| && Aligned(a, ps) && Aligned(k, ps)
    ensures slots[k - 1] / ps !in EdgePages(slots, a, k - ps, ps)
  {
    hide OwnsPages;
    var page := slots[k - 1] / ps;
    EdgePagesMember(slots, a, k - ps, ps, page);
    if page in EdgePages(slots, a, k - ps, ps) {
      var j: nat :| EndsPage(slots, a, k - ps, ps, page, j);
      EntriesDiffer(v, path, slots, j, k, ps, numPages);
    }
  }

  function PagesBetween(a: nat, k: nat, ps: nat): nat
    requires ps > 0
    decreases k
  {
    if k <= a || k < ps then 0 else PagesBetween(a, k - ps, ps) + 1
  }

  lemma {:induction false} PagesBetweenLength(a: nat, k: nat, ps: nat)
    requires ps > 0 && a <= k && Aligned(a, ps) && Aligned(k, ps)
    ensures PagesBetween(a, k, ps) * ps == k - a
    decreases k
  {
    if k > a {
      AlignedGap(a, k, ps);
      PagesBetweenLength(a, k - ps, ps);
      MulStep(PagesBetween(a, k - ps, ps), ps);
    }
  }

  lemma MulStep(q: nat, ps: nat)
    ensures (q + 1) * ps == q * ps + ps
  {
  }

  /** An edge owns one page per page of its key. */
  lemma {:induction false} EdgePagesCard(v: View, path: seq<Token>, slots: seq<int>, a: nat, k: nat, ps: nat,
      numPages: nat)
    requires ps > 0 && OwnsPages(v, ps, numPages) && |path| == |slots| && Covers(v, path, slots, ps)
    requires a <= k <= |path| && Aligned(a, ps) && Aligned(k, ps)
    ensures |EdgePages(slots, a, k, ps)| == PagesBetween(a, k, ps)
    decreases k
  {
    hide OwnsPages, Covers;
    if k > a {
      AlignedGap(a, k, ps);
      EdgePagesCard(v, path, slots, a, k - ps, ps, numPages);
      EdgePageIsNew(v, path, slots, a, k, ps, numPages);
    }
  }

  /** Freeing the slots of an edge returns exactly the pages of the edge. */
  lemma EdgeValuePages(v: View, path: seq<Token>, slots: seq<int>, a: nat, ps: nat, numPages: nat, page: int)
    requires ps > 0 && OwnsPages(v, ps, numPages) && |path| == |slots| && Covers(v, path, slots, ps)
    requires a <= |path| && Aligned(a, ps) && Aligned(|path|, ps)
    ensures page in ValidPages(slots[a..], ps, numPages) <==> page in EdgePages(slots, a, |path|, ps)
  {
    EdgePagesMember(slots, a, |path|, ps, page);
    ValidPagesMembers(slots[a..], ps, numPages, page);
    if page in ValidPages(slots[a..], ps, numPages) {
      var i :| 0 <= i < |slots[a..]| && slots[a..][i] / ps == page;
      var j := PageEnd(v, path, slots, a + i, ps, numPages);
      assert EndsPage(slots, a, |path|, ps, page, j);
    }
    if j: nat :| EndsPage(slots, a, |path|, ps, page, j) {
      EntryPage(v, path, slots, j, ps);
      assert slots[a..][j - 1 - a] == slots[j - 1];
    }
  }

  /** The end of the page that holds position `x` of a stored path. */
  lemma PageEnd(v: View, path: seq<Token>, slots: seq<int>, x: nat, ps: nat, numPages: nat) returns (j: nat)
    requires ps > 0 && OwnsPages(v, ps, numPages) && |path| == |slots| && Covers(v, path, slots, ps)
    requires x < |path| && Aligned(|path|, ps)
    ensures x < j <= |path| && Aligned(j, ps) && slots[x] / ps == slots[j - 1] / ps
  {
    var start := AlignLen(x, ps);
    j := start + ps;
    AlignedGap(start, |path|, ps);
    EntryPage(v, path, slots, j, ps);
    assert v[path[..j]][x] == slots[x];
  }

  /** Removing the entries of an edge that nothing else extends. */
  lemma RemoveEdge(v: View, v': View, path: seq<Token>, slots: seq<int>, a: nat, ps: nat, numPages: nat)
    requires ps > 0 && OwnsPages(v, ps, numPages) && |path| == |slots| && Covers(v, path, slots, ps)
    requires a <= |path| && Aligned(a, ps) && Aligned(|path|, ps)
    requires v' == v - EdgeEntries(path, a, ps) && WellFormed(v', ps)
    ensures OwnsPages(v', ps, numPages)
    ensures StoredPages(v', ps) == StoredPages(v, ps) - EdgePages(slots, a, |path|, ps)
    ensures EdgePages(slots, a, |path|, ps) <= StoredPages(v, ps)
  {
    forall p | p in v && p != []
      ensures PageOf(v, p, ps) in EdgePages(slots, a, |path|, ps) <==> p in EdgeEntries(path, a, ps)
    {
      EntryOwnsEdgePage(v, path, slots, a, ps, numPages, p);
    }
    forall page | page in EdgePages(slots, a, |path|, ps)
      ensures page in StoredPages(v, ps)
    {
      EdgePageStored(v, path, slots, a, ps, numPages, page);
    }
    assert forall p | p in v' :: p in v && v'[p] == v[p];
    assert forall p | p in v' && p != [] :: PageOf(v', p, ps) == PageOf(v, p, ps);
  }

  lemma EdgePageStored(v: View, path: seq<Token>, slots: seq<int>, a: nat, ps: nat, numPages: nat, page: int)
    requires ps > 0 && OwnsPages(v, ps, numPages) && |path| == |slots| && Covers(v, path, slots, ps)
    requires a <= |path| && Aligned(a, ps) && Aligned(|path|, ps)
    ensures page in EdgePages(slots, a, |path|, ps) ==> page in StoredPages(v, ps)
  {
    EdgePagesMember(slots, a, |path|, ps, page);
    if j: nat :| EndsPage(slots, a, |path|, ps, page, j) {
      EntryPage(v, path, slots, j, ps);
      assert path[..j] != [];
    }
  }

  lemma EntryOwnsEdgePage(v: View, path: seq<Token>, slots: seq<int>, a: nat, ps: nat, numPages: nat, p: seq<Token>)
    requires ps > 0 && OwnsPages(v, ps, numPages) && |path| == |slots| && Covers(v, path, slots, ps)
    requires a <= |path| && Aligned(a, ps) && Aligned(|path|, ps) && p in v && p != []
    ensures PageOf(v, p, ps) in EdgePages(slots, a, |path|, ps) <==> p in EdgeEntries(path, a, ps)
  {
    var page := PageOf(v, p, ps);
    EdgePagesMember(slots, a, |path|, ps, page);
    if j: nat :| EndsPage(slots, a, |path|, ps, page, j) {
      EntryPage(v, path, slots, j, ps);
      assert p == path[..j];
    }
    if p in EdgeEntries(path, a, ps) {
      var k: nat :| a < k <= |path| && Aligned(k, ps) && p == path[..k];
      EntryPage(v, path, slots, k, ps);
      assert EndsPage(slots, a, |path|, ps, page, k);
    }
  }

  /** Returning pages that were not free grows the free list by exactly those pages. */
  lemma FreeAddsPages(free: seq<int>, indices: seq<int>, ps: nat, numPages: nat, pages: set<int>)
    requires ps > 0 && Distinct(free) && pages !! Elements(free)
    requires forall page :: page in ValidPages(indices, ps, numPages) <==> page in pages
    ensures Elements(FreeInto(free, indices, ps, numPages)) == Elements(free) + pages
    ensures |FreeInto(free, indices, ps, numPages)| == |free| + |pages|
  {
    var after := FreeInto(free, indices, ps, numPages);
    FreeIntoElements(free, indices, ps, numPages);
    forall y
      ensures y in Elements(after) <==> y in Elements(free) + pages
    {
      assert y in after <==> y in free || y in ValidPages(indices, ps, numPages);
    }
    DistinctCard(free);
    DistinctCard(after);
  }

  /** What returning the slots of an edge does to the free list. */
  lemma FreeEdge(v: View, path: seq<Token>, slots: seq<int>, a: nat, free: seq<int>, ps: nat, numPages: nat)
    requires ps > 0 && OwnsPages(v, ps, numPages) && |path| == |slots| && Covers(v, path, slots, ps)
    requires a <= |path| && Aligned(a, ps) && Aligned(|path|, ps)
    requires Distinct(free) && StoredPages(v, ps) !! Elements(free)
    ensures Elements(FreeInto(free, slots[a..], ps, numPages)) == Elements(free) + EdgePages(slots, a, |path|, ps)
    ensures |FreeInto(free, slots[a..], ps, numPages)| == |free| + PagesBetween(a, |path|, ps)
  {
    hide OwnsPages, Covers, FreeInto;
    var pages := EdgePages(slots, a, |path|, ps);
    forall page
      ensures page in ValidPages(slots[a..], ps, numPages) <==> page in pages
      ensures page in pages ==> page in StoredPages(v, ps)
    {
      EdgeValuePages(v, path, slots, a, ps, numPages, page);
      EdgePageStored(v, path, slots, a, ps, numPages, page);
    }
    FreeAddsPages(free, slots[a..], ps, numPages, pages);
    EdgePagesCard(v, path, slots, a, |path|, ps, numPages);
  }

  lemma PagesTimesSize(n: nat, free: nat, a: nat, k: nat, ps: nat)
    requires ps > 0 && a <= k && Aligned(a, ps) && Aligned(k, ps) && n == free + PagesBetween(a, k, ps)
    ensures n * ps == free * ps + (k - a)
  {
    PagesBetweenLength(a, k, ps);
    Distribute(free, PagesBetween(a, k, ps), ps);
  }

  lemma Distribute(x: nat, y: nat, ps: nat)
    ensures (x + y) * ps == x * ps + y * ps
  {
  }
}
