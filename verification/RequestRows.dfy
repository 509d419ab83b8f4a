/** Rows of the request table and the pages they occupy. */
module RequestRows {
  import opened Pages
  import opened Orders
  import opened PrefixMap
  import opened PagedMemory
  import opened PageOwnership

  /** From position `from` on, positions share a memory page exactly when they share a page of
      the row. */
  ghost predicate PagedRow(row: seq<int>, from: nat, ps: nat)
    requires ps > 0
  {
    forall i: nat, j: nat | from <= i < |row| && from <= j < |row| ::
      AlignLen(i, ps) == AlignLen(j, ps) <==> row[i] / ps == row[j] / ps
  }

  /** The memory pages of the positions `a..b`. */
  ghost function RowPages(row: seq<int>, a: nat, b: nat, ps: nat): set<int>
    requires ps > 0 && b <= |row|
  {
    set i: nat | a <= i < b :: row[i] / ps
  }

  ghost predicate RealPages(pages: set<int>, numPages: nat) {
    forall p | p in pages :: 1 <= p <= numPages
  }

  lemma RowPagesSplit(row: seq<int>, a: nat, b: nat, c: nat, ps: nat)
    requires ps > 0 && a <= b <= c <= |row|
    ensures RowPages(row, a, c, ps) == RowPages(row, a, b, ps) + RowPages(row, b, c, ps)
  {
    forall p | p in RowPages(row, a, c, ps)
      ensures p in RowPages(row, a, b, ps) + RowPages(row, b, c, ps)
    {
      var i: nat :| a <= i < c && row[i] / ps == p;
      assert i < b || b <= i;
    }
  }

  /** A page boundary separates the pages before it from the pages after it. */
  lemma RowPagesDisjoint(row: seq<int>, from: nat, a: nat, b: nat, c: nat, ps: nat)
    requires ps > 0 && PagedRow(row, from, ps) && from <= a <= b <= c <= |row| && Aligned(b, ps)
    ensures RowPages(row, a, b, ps) !! RowPages(row, b, c, ps)
  {
    forall i: nat, j: nat | a <= i < b && b <= j < c
      ensures row[i] / ps != row[j] / ps
    {
      BoundarySeparates(i, b, j, ps);
    }
  }

  lemma BoundarySeparates(i: nat, b: nat, j: nat, ps: nat)
    requires ps > 0 && i < b <= j && Aligned(b, ps)
    ensures AlignLen(i, ps) < b <= AlignLen(j, ps)
  {
    if AlignLen(j, ps) < b {
      AlignedGap(AlignLen(j, ps), b, ps);
    }
  }

  /** Freeing a stretch of a row adds exactly its pages to the free list. */
  lemma FreeRow(free: seq<int>, row: seq<int>, a: nat, b: nat, ps: nat, numPages: nat)
    requires ps > 0 && a <= b <= |row| && RealPages(RowPages(row, a, b, ps), numPages)
    ensures Elements(FreeInto(free, row[a..b], ps, numPages)) == Elements(free) + RowPages(row, a, b, ps)
  {
    hide FreeInto;
    FreeIntoElements(free, row[a..b], ps, numPages);
    forall p
      ensures p in ValidPages(row[a..b], ps, numPages) <==> p in RowPages(row, a, b, ps)
    {
      ValidPagesMembers(row[a..b], ps, numPages, p);
      if p in RowPages(row, a, b, ps) {
        var i: nat :| a <= i < b && row[i] / ps == p;
        assert row[a..b][i - a] / ps == p;
      }
      if i :| 0 <= i < |row[a..b]| && row[a..b][i] / ps == p {
        assert row[a + i] / ps == p;
      }
    }
    forall p
      ensures p in Elements(FreeInto(free, row[a..b], ps, numPages)) <==> p in Elements(free) + RowPages(row, a, b, ps)
    {
      assert p in FreeInto(free, row[a..b], ps, numPages) <==> p in free || p in ValidPages(row[a..b], ps, numPages);
    }
  }

  /** Inserting a row: the cache takes over exactly the pages of the part that was missing. */
  lemma InsertTakesPages(v: View, key: seq<Token>, row: seq<int>, from: nat, m: nat, ps: nat, numPages: nat)
    requires ps > 0 && OwnsPages(v, ps, numPages) && IsMatchLen(v, key, ps, m) && Aligned(|key|, ps)
    requires |key| <= |row| && from <= m && Aligned(from, ps) && PagedRow(row, from, ps)
    requires |v[key[..m]]| == m
    requires RowPages(row, m, |key|, ps) !! StoredPages(v, ps) && RealPages(RowPages(row, m, |key|, ps), numPages)
    ensures var v' := AddPages(v, key, v[key[..m]] + row[m..|key|], m, ps);
      && OwnsPages(v', ps, numPages)
      && StoredPages(v', ps) == StoredPages(v, ps) + RowPages(row, m, |key|, ps)
  {
    hide OwnsPages, WellFormed, IsMatchLen, PagedRow;
    MatchLenFacts(v, key, m, ps);
    var slots := v[key[..m]] + row[m..|key|];
    var v' := AddPages(v, key, slots, m, ps);
    AddPagesInserts(v, key, slots, m, ps);
    OwnedIsWellFormed(v, ps, numPages);
    InsertKeepsWellFormed(v, v', key, slots, m, ps);
    InsertedOwns(v, v', key, slots, row, from, m, ps, numPages);
    InsertedStores(v, v', key, slots, row, from, m, ps, numPages);
  }

  lemma MatchLenFacts(v: View, key: seq<Token>, m: nat, ps: nat)
    requires ps > 0 && IsMatchLen(v, key, ps, m)
    ensures m <= |key| && Aligned(m, ps) && key[..m] in v
    ensures forall k: nat | m < k <= |key| && Aligned(k, ps) :: key[..k] !in v
  {
  }

  lemma OwnedIsWellFormed(v: View, ps: nat, numPages: nat)
    requires ps > 0 && OwnsPages(v, ps, numPages)
    ensures WellFormed(v, ps)
  {
  }

  /** The situation after an insertion, seen from the row that was inserted. */
  ghost predicate RowInserted(v: View, v': View, key: seq<Token>, slots: seq<int>, row: seq<int>, from: nat, m: nat,
                              ps: nat, numPages: nat)
    requires ps > 0
  {
    && |key| == |slots| && |key| <= |row| && from <= m <= |key| && Aligned(m, ps) && Aligned(|key|, ps)
    && PagedRow(row, from, ps) && (forall i | m <= i < |key| :: slots[i] == row[i])
    && OwnsPages(v, ps, numPages) && WellFormed(v', ps) && Inserted(v, v', key, slots, ps, m)
    && RowPages(row, m, |key|, ps) !! StoredPages(v, ps) && RealPages(RowPages(row, m, |key|, ps), numPages)
  }

  lemma InsertedOwns(v: View, v': View, key: seq<Token>, slots: seq<int>, row: seq<int>, from: nat, m: nat, ps: nat,
      numPages: nat)
    requires ps > 0 && RowInserted(v, v', key, slots, row, from, m, ps, numPages)
    ensures OwnsPages(v', ps, numPages)
  {
    hide RowInserted;
    assert WellFormed(v', ps) by { RowInsertedFacts(v, v', key, slots, row, from, m, ps, numPages); }
    forall p | p in v' && p != []
      ensures 1 <= PageOf(v', p, ps) <= numPages
      ensures forall i | |p| - ps <= i < |p| && 0 <= i :: v'[p][i] / ps == PageOf(v', p, ps)
    {
      if p in v {
        OldEntry(v, v', key, slots, row, from, m, p, ps, numPages);
      } else {
        NewEntry(v, v', key, slots, row, from, m, p, ps, numPages);
      }
    }
    forall p, q | p in v' && q in v' && p != [] && q != [] && PageOf(v', p, ps) == PageOf(v', q, ps)
      ensures p == q
    {
      EntriesOwnDifferentPages(v, v', key, slots, row, from, m, p, q, ps, numPages);
    }
  }

  lemma InsertedStores(v: View, v': View, key: seq<Token>, slots: seq<int>, row: seq<int>, from: nat, m: nat,
      ps: nat, numPages: nat)
    requires ps > 0 && RowInserted(v, v', key, slots, row, from, m, ps, numPages)
    ensures StoredPages(v', ps) == StoredPages(v, ps) + RowPages(row, m, |key|, ps)
  {
    hide RowInserted;
    RowInsertedFacts(v, v', key, slots, row, from, m, ps, numPages);
    forall page
      ensures page in StoredPages(v', ps) <==> page in StoredPages(v, ps) || page in RowPages(row, m, |key|, ps)
    {
      if page in StoredPages(v', ps) {
        var p :| p in v' && p != [] && PageOf(v', p, ps) == page;
        if p in v {
          OldEntry(v, v', key, slots, row, from, m, p, ps, numPages);
        } else {
          NewEntry(v, v', key, slots, row, from, m, p, ps, numPages);
        }
      }
      if page in StoredPages(v, ps) {
        var p :| p in v && p != [] && |v[p]| == |p| && PageOf(v, p, ps) == page;
        OldEntry(v, v', key, slots, row, from, m, p, ps, numPages);
      }
      if page in RowPages(row, m, |key|, ps) {
        RowPageStored(v, v', key, slots, row, from, m, page, ps, numPages);
      }
    }
  }

  lemma RowInsertedFacts(v: View, v': View, key: seq<Token>, slots: seq<int>, row: seq<int>, from: nat, m: nat,
      ps: nat, numPages: nat)
    requires ps > 0 && RowInserted(v, v', key, slots, row, from, m, ps, numPages)
    ensures WellFormed(v', ps) && |key| <= |row| && forall p | p in v' :: |v'[p]| == |p|
  {
  }

  lemma OldEntry(v: View, v': View, key: seq<Token>, slots: seq<int>, row: seq<int>, from: nat, m: nat, p: seq<Token>,
                 ps: nat, numPages: nat)
    requires ps > 0 && RowInserted(v, v', key, slots, row, from, m, ps, numPages) && p in v && p != []
    ensures p in v' && |v'[p]| == |v[p]| == |p| && PageOf(v', p, ps) == PageOf(v, p, ps)
    ensures PageOf(v, p, ps) in StoredPages(v, ps)
    ensures 1 <= PageOf(v', p, ps) <= numPages
    ensures forall i | |p| - ps <= i < |p| && 0 <= i :: v'[p][i] / ps == PageOf(v', p, ps)
    ensures |key| <= |row| && PageOf(v, p, ps) !in RowPages(row, m, |key|, ps)
  {
    assert PageOf(v, p, ps) in StoredPages(v, ps);
  }

  lemma NewEntry(v: View, v': View, key: seq<Token>, slots: seq<int>, row: seq<int>, from: nat, m: nat, p: seq<Token>,
                 ps: nat, numPages: nat)
    requires ps > 0 && RowInserted(v, v', key, slots, row, from, m, ps, numPages) && p in v' && p !in v
    ensures m < |p| <= |key| <= |row| && |v'[p]| == |p| && p != [] && Aligned(|p|, ps) && p == key[..|p|]
    ensures |p| >= m + ps && PageOf(v', p, ps) == row[|p| - 1] / ps
    ensures PageOf(v', p, ps) in RowPages(row, m, |key|, ps) && 1 <= PageOf(v', p, ps) <= numPages
    ensures forall i | |p| - ps <= i < |p| && 0 <= i :: v'[p][i] / ps == PageOf(v', p, ps)
  {
    hide OwnsPages;
    AlignedGap(m, |p|, ps);
    NewEntryPage(v, v', key, slots, row, from, m, p, ps);
  }

  lemma InsertKeepsWellFormed(v: View, v': View, key: seq<Token>, slots: seq<int>, m: nat, ps: nat)
    requires ps > 0 && WellFormed(v, ps) && |key| == |slots| && m <= |key|
    requires key[..m] in v && v[key[..m]] == slots[..m] && Inserted(v, v', key, slots, ps, m)
    ensures WellFormed(v', ps)
  {
    assert Covers(v, key[..m], slots[..m], ps);
    CoversInserted(v, v', key, slots, m, ps);
    forall p | p in v'
      ensures Aligned(|p|, ps) && |v'[p]| == |p| && Covers(v', p, v'[p], ps)
    {
      if p in v {
        CoversKept(v, v', p, v[p], ps);
      } else {
        assert v'[p] == slots[..|p|] && p == key[..|p|];
        CoversShorter(v', key, slots, |p|, ps);
      }
    }
  }

  lemma NewEntryPage(v: View, v': View, key: seq<Token>, slots: seq<int>, row: seq<int>, from: nat, m: nat,
      p: seq<Token>, ps: nat)
    requires ps > 0 && |key| == |slots| && |key| <= |row| && from <= m <= |key| && Aligned(m, ps)
    requires PagedRow(row, from, ps)
    requires forall i | m <= i < |key| :: slots[i] == row[i]
    requires Inserted(v, v', key, slots, ps, m) && p in v' && p !in v
    ensures m < |p| <= |key| && |v'[p]| == |p| && p != [] && Aligned(|p|, ps)
    ensures PageOf(v', p, ps) == row[|p| - 1] / ps
    ensures PageOf(v', p, ps) in RowPages(row, m, |key|, ps)
    ensures forall i | |p| - ps <= i < |p| && 0 <= i :: v'[p][i] / ps == PageOf(v', p, ps)
  {
    hide PagedRow, Inserted, AlignLen;
    NewEntryIs(v, v', key, slots, m, p, ps);
    AlignedGap(m, |p|, ps);
    AlignedSub(|p|, ps, ps);
    WithinPage(|p| - ps, |p| - 1, ps);
    forall i: nat | |p| - ps <= i < |p|
      ensures v'[p][i] / ps == row[|p| - 1] / ps
    {
      WithinPage(|p| - ps, i, ps);
      SamePage(row, from, i, |p| - 1, ps);
      assert v'[p][i] == slots[i] == row[i];
    }
  }

  lemma NewEntryIs(v: View, v': View, key: seq<Token>, slots: seq<int>, m: nat, p: seq<Token>, ps: nat)
    requires ps > 0 && |key| == |slots| && Inserted(v, v', key, slots, ps, m) && p in v' && p !in v
    ensures m < |p| <= |key| && Aligned(|p|, ps) && p == key[..|p|] && v'[p] == slots[..|p|]
  {
  }

  lemma WithinPage(start: nat, i: nat, ps: nat)
    requires ps > 0 && Aligned(start, ps) && start <= i < start + ps
    ensures AlignLen(i, ps) == start
  {
    var a := AlignLen(i, ps);
    if a < start {
      AlignedGap(a, start, ps);
    } else if a > start {
      AlignedGap(start, a, ps);
    }
  }

  lemma EntriesOwnDifferentPages(v: View, v': View, key: seq<Token>, slots: seq<int>, row: seq<int>, from: nat, m: nat,
                                 p: seq<Token>, q: seq<Token>, ps: nat, numPages: nat)
    requires ps > 0 && RowInserted(v, v', key, slots, row, from, m, ps, numPages)
    requires p in v' && q in v' && p != [] && q != [] && |v'[p]| == |p| && |v'[q]| == |q|
    requires PageOf(v', p, ps) == PageOf(v', q, ps)
    ensures p == q
  {
    hide RowInserted;
    if p in v && q in v {
      OldEntriesDiffer(v, v', key, slots, row, from, m, p, q, ps, numPages);
    } else if p in v {
      OldEntry(v, v', key, slots, row, from, m, p, ps, numPages);
      NewEntry(v, v', key, slots, row, from, m, q, ps, numPages);
    } else if q in v {
      OldEntry(v, v', key, slots, row, from, m, q, ps, numPages);
      NewEntry(v, v', key, slots, row, from, m, p, ps, numPages);
    } else {
      NewEntry(v, v', key, slots, row, from, m, p, ps, numPages);
      NewEntry(v, v', key, slots, row, from, m, q, ps, numPages);
      SamePageSameEnd(row, from, |p|, |q|, ps) by {
        RowInsertedPaged(v, v', key, slots, row, from, m, ps, numPages);
      }
    }
  }

  lemma OldEntriesDiffer(v: View, v': View, key: seq<Token>, slots: seq<int>, row: seq<int>, from: nat, m: nat,
                         p: seq<Token>, q: seq<Token>, ps: nat, numPages: nat)
    requires ps > 0 && RowInserted(v, v', key, slots, row, from, m, ps, numPages)
    requires p in v && q in v && p != [] && q != [] && p in v' && q in v' && |v'[p]| == |p| && |v'[q]| == |q|
    requires PageOf(v', p, ps) == PageOf(v', q, ps)
    ensures p == q
  {
    assert PageOf(v, p, ps) == PageOf(v, q, ps);
  }

  lemma RowInsertedPaged(v: View, v': View, key: seq<Token>, slots: seq<int>, row: seq<int>, from: nat, m: nat,
      ps: nat, numPages: nat)
    requires ps > 0 && RowInserted(v, v', key, slots, row, from, m, ps, numPages)
    ensures PagedRow(row, from, ps) && from <= m
  {
  }

  lemma SamePageSameEnd(row: seq<int>, from: nat, a: nat, b: nat, ps: nat)
    requires ps > 0 && PagedRow(row, from, ps) && from + ps <= a <= |row| && from + ps <= b <= |row|
    requires Aligned(a, ps) && Aligned(b, ps) && row[a - 1] / ps == row[b - 1] / ps
    ensures a == b
  {
    AlignedSub(a, ps, ps);
    AlignedSub(b, ps, ps);
    WithinPage(a - ps, a - 1, ps);
    WithinPage(b - ps, b - 1, ps);
  }

  lemma RowPageStored(v: View, v': View, key: seq<Token>, slots: seq<int>, row: seq<int>, from: nat, m: nat, page: int,
                      ps: nat, numPages: nat)
    requires ps > 0 && RowInserted(v, v', key, slots, row, from, m, ps, numPages)
    requires page in RowPages(row, m, |key|, ps)
    ensures page in StoredPages(v', ps)
  {
    hide OwnsPages, WellFormed, PagedRow, Inserted, StoredPages;
    var i: nat :| m <= i < |key| && row[i] / ps == page;
    PageEndStored(v, v', key, slots, row, from, m, i, ps);
  }

  /** The page of position `i` is the page of the entry that ends with that page. */
  lemma PageEndStored(v: View, v': View, key: seq<Token>, slots: seq<int>, row: seq<int>, from: nat, m: nat, i: nat,
      ps: nat)
    requires ps > 0 && |key| == |slots| && |key| <= |row| && from <= m <= i < |key| && Aligned(m, ps)
    requires Aligned(|key|, ps)
    requires PagedRow(row, from, ps) && (forall i | m <= i < |key| :: slots[i] == row[i])
    requires Inserted(v, v', key, slots, ps, m)
    ensures row[i] / ps in StoredPages(v', ps)
  {
    hide PagedRow, Inserted, StoredPages, AlignLen;
    var start := AlignLen(i, ps);
    AlignLenAtLeast(m, i, ps);
    AlignedGap(start, |key|, ps);
    AlignedAdd(start, ps, ps);
    WithinPage(start, start + ps - 1, ps);
    SamePage(row, from, i, start + ps - 1, ps);
    InsertedEntry(v, v', key, slots, start + ps, m, ps);
    EntryStored(v', key[..start + ps], ps);
  }

  lemma SamePage(row: seq<int>, from: nat, i: nat, j: nat, ps: nat)
    requires ps > 0 && PagedRow(row, from, ps) && from <= i < |row| && from <= j < |row|
    ensures AlignLen(i, ps) == AlignLen(j, ps) <==> row[i] / ps == row[j] / ps
  {
    hide AlignLen;
  }

  lemma InsertedEntry(v: View, v': View, key: seq<Token>, slots: seq<int>, k: nat, m: nat, ps: nat)
    requires ps > 0 && |key| == |slots| && Inserted(v, v', key, slots, ps, m) && m < k <= |key| && Aligned(k, ps)
    ensures key[..k] in v' && v'[key[..k]] == slots[..k]
  {
  }

  lemma EntryStored(v: View, p: seq<Token>, ps: nat)
    requires ps > 0 && p in v && p != [] && |v[p]| == |p|
    ensures v[p][|p| - 1] / ps in StoredPages(v, ps)
  {
    assert PageOf(v, p, ps) in StoredPages(v, ps);
  }

  lemma AlignLenAtLeast(m: nat, i: nat, ps: nat)
    requires ps > 0 && Aligned(m, ps) && m <= i
    ensures m <= AlignLen(i, ps)
  {
    if AlignLen(i, ps) < m {
      AlignedGap(AlignLen(i, ps), m, ps);
    }
  }
}
