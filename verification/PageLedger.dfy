/** Who holds which KV page.  A loan records what one request holds: the stored prefix it
    borrows from the cache and the row of slots it uses; it owns the pages of the row past the
    prefix.  `Partition` says that the pages 1..numPages are shared out among the free list,
    the cache and the loans, without overlap and without loss. */
module PageLedger {
  import opened Pages
  import opened Orders
  import opened PrefixMap
  import opened PagedMemory
  import opened PageOwnership
  import opened RequestRows

  datatype Loan = Loan(path: seq<Token>, row: seq<int>)

  ghost function Owned(l: Loan, ps: nat): set<int>
    requires ps > 0
  {
    RowPages(l.row, |l.path|, |l.row|, ps)
  }

  ghost predicate LoanOk(l: Loan, v: View, ps: nat)
    requires ps > 0
  {
    && |l.path| <= |l.row| && Aligned(|l.path|, ps)
    && l.path in v && v[l.path] == l.row[..|l.path|] && PagedRow(l.row, |l.path|, ps)
  }

  /** Somebody holds the page. */
  ghost predicate Held<K>(free: set<int>, v: View, loans: map<K, Loan>, ps: nat, page: int)
    requires ps > 0
  {
    page in free || page in StoredPages(v, ps) || exists r :: r in loans && page in Owned(loans[r], ps)
  }

  ghost predicate Partition<K>(free: set<int>, v: View, loans: map<K, Loan>, ps: nat, numPages: nat)
    requires ps > 0
  {
    && OwnsPages(v, ps, numPages) && free !! StoredPages(v, ps)
    && (forall r | r in loans :: LoanOk(loans[r], v, ps))
    && (forall r | r in loans :: Owned(loans[r], ps) !! free && Owned(loans[r], ps) !! StoredPages(v, ps))
    && (forall r, s | r in loans && s in loans && r != s :: Owned(loans[r], ps) !! Owned(loans[s], ps))
    && (forall page :: 1 <= page <= numPages <==> Held(free, v, loans, ps, page))
  }

  /** Nothing is stored or lent out at the start. */
  lemma EmptyPartition<K>(free: set<int>, ps: nat, numPages: nat)
    requires ps > 0 && forall page :: page in free <==> 1 <= page <= numPages
    ensures var loans: map<K, Loan> := map[]; Partition(free, map[[] := []], loans, ps, numPages)
  {
    var v: View := map[[] := []];
    var loans: map<K, Loan> := map[];
    assert Aligned(0, ps);
    assert Covers(v, [], [], ps);
    assert StoredPages(v, ps) == {};
    forall page
      ensures 1 <= page <= numPages <==> Held(free, v, loans, ps, page)
    {
    }
  }

  /** A loan of a stored prefix owns nothing yet. */
  lemma AdmitKeepsPartition<K>(free: set<int>, v: View, loans: map<K, Loan>, r: K, path: seq<Token>, ps: nat,
      numPages: nat)
    requires ps > 0 && Partition(free, v, loans, ps, numPages)
    requires path in v && (r in loans ==> |loans[r].row| == |loans[r].path|)
    ensures |v[path]| == |path| && Partition(free, v, loans[r := Loan(path, v[path])], ps, numPages)
  {
    hide PagedRow;
    var l := Loan(path, v[path]);
    var loans' := loans[r := l];
    OwnedIsWellFormed(v, ps, numPages);
    assert Owned(l, ps) == {};
    assert r in loans ==> Owned(loans[r], ps) == {};
    assert PagedRow(l.row, |path|, ps) by { ShortRowPaged(l.row, |path|, ps); }
    forall page
      ensures 1 <= page <= numPages <==> Held(free, v, loans', ps, page)
    {
      SameHolding(free, v, loans, loans', r, ps, page);
    }
  }

  lemma ShortRowPaged(row: seq<int>, from: nat, ps: nat)
    requires ps > 0 && |row| <= from
    ensures PagedRow(row, from, ps)
  {
  }

  lemma SameHolding<K>(free: set<int>, v: View, loans: map<K, Loan>, loans': map<K, Loan>, r: K, ps: nat, page: int)
    requires ps > 0 && r in loans' && page !in Owned(loans'[r], ps) && (r in loans ==> page !in Owned(loans[r], ps))
    requires forall s | s != r :: (s in loans <==> s in loans') && (s in loans ==> loans[s] == loans'[s])
    ensures Held(free, v, loans, ps, page) <==> Held(free, v, loans', ps, page)
  {
    if s :| s in loans && page in Owned(loans[s], ps) {
      assert s in loans' && page in Owned(loans'[s], ps);
    }
    if s :| s in loans' && page in Owned(loans'[s], ps) {
      assert s in loans && page in Owned(loans[s], ps);
    }
  }

  // ---------- Eviction ----------

  /** Eviction moves pages from the cache to the free list; the borrowed prefixes stay. */
  lemma EvictKeepsPartition<K>(free: set<int>, v: View, free': set<int>, v': View, loans: map<K, Loan>, ps: nat,
      numPages: nat)
    requires ps > 0 && Partition(free, v, loans, ps, numPages) && OwnsPages(v', ps, numPages)
    requires free' !! StoredPages(v', ps) && free' + StoredPages(v', ps) == free + StoredPages(v, ps)
    requires forall p | p in v' :: p in v && v'[p] == v[p]
    requires forall r | r in loans :: loans[r].path in v'
    ensures Partition(free', v', loans, ps, numPages)
  {
    hide OwnsPages, PagedRow, Owned, StoredPages;
    forall r | r in loans
      ensures Owned(loans[r], ps) !! free' && Owned(loans[r], ps) !! StoredPages(v', ps)
    {
      assert Owned(loans[r], ps) !! free + StoredPages(v, ps);
    }
    forall page
      ensures 1 <= page <= numPages <==> Held(free', v', loans, ps, page)
    {
      assert page in free' + StoredPages(v', ps) <==> page in free + StoredPages(v, ps);
      assert Held(free, v, loans, ps, page) <==> Held(free', v', loans, ps, page);
    }
  }

  // ---------- Release ----------

  /** What a finished request gives back when its row is inserted: the part that was stored
      already and the tail that does not fill a page. */
  ghost function GivenBack(l: Loan, m: nat, aligned: nat, ps: nat): set<int>
    requires ps > 0 && m <= aligned <= |l.row|
  {
    RowPages(l.row, |l.path|, m, ps) + RowPages(l.row, aligned, |l.row|, ps)
  }

  /** The three stretches of a row own different pages. */
  lemma RowInThree(l: Loan, v: View, m: nat, aligned: nat, ps: nat)
    requires ps > 0 && LoanOk(l, v, ps) && |l.path| <= m <= aligned <= |l.row| && Aligned(m, ps) && Aligned(aligned, ps)
    ensures Owned(l, ps) == GivenBack(l, m, aligned, ps) + RowPages(l.row, m, aligned, ps)
    ensures GivenBack(l, m, aligned, ps) !! RowPages(l.row, m, aligned, ps)
  {
    var from, n := |l.path|, |l.row|;
    RowPagesSplit(l.row, from, m, n, ps);
    RowPagesSplit(l.row, m, aligned, n, ps);
    RowPagesDisjoint(l.row, from, from, m, n, ps);
    RowPagesDisjoint(l.row, from, m, aligned, n, ps);
  }

  /** The lock on the borrowed prefix makes `insert` find at least that much. */
  lemma LockedPrefixIsMatched(l: Loan, v: View, key: seq<Token>, m: nat, ps: nat)
    requires ps > 0 && LoanOk(l, v, ps) && l.path <= key && IsMatchLen(v, key, ps, m)
    ensures |l.path| <= m
  {
    assert key[..|l.path|] == l.path;
  }

  /** Releasing with an insertion: the cache takes over the pages of the missing part, all
      other pages of the request become free. */
  lemma ReleaseKeepsPartition<K>(free: set<int>, v: View, loans: map<K, Loan>, r: K, key: seq<Token>, m: nat,
      ps: nat, numPages: nat)
    requires ps > 0 && Partition(free, v, loans, ps, numPages) && r in loans
    requires |key| == AlignLen(|loans[r].row|, ps) && loans[r].path <= key && IsMatchLen(v, key, ps, m)
    requires |v[key[..m]]| == m
    ensures Partition(free + GivenBack(loans[r], m, |key|, ps),
                      AddPages(v, key, v[key[..m]] + loans[r].row[m..|key|], m, ps), loans - {r}, ps, numPages)
  {
    hide OwnsPages, IsMatchLen, StoredPages, AddPages, RowPages, PagedRow;
    var l := loans[r];
    MatchLenFacts(v, key, m, ps);
    var slots := v[key[..m]] + l.row[m..|key|];
    var v' := AddPages(v, key, slots, m, ps);
    assert LoanOk(l, v, ps);
    LockedPrefixIsMatched(l, v, key, m, ps);
    RowInThree(l, v, m, |key|, ps);
    forall page | page in Owned(l, ps)
      ensures 1 <= page <= numPages
    {
      assert Held(free, v, loans, ps, page);
    }
    InsertTakesPages(v, key, l.row, |l.path|, m, ps, numPages);
    AddPagesInserts(v, key, slots, m, ps);
    HandOver(free, v, loans, r, GivenBack(l, m, |key|, ps), RowPages(l.row, m, |key|, ps), v', ps, numPages);
  }

  /** Releasing without an insertion frees everything the request owns. */
  lemma DropKeepsPartition<K>(free: set<int>, v: View, loans: map<K, Loan>, r: K, ps: nat, numPages: nat)
    requires ps > 0 && Partition(free, v, loans, ps, numPages) && r in loans
    ensures Partition(free + Owned(loans[r], ps), v, loans - {r}, ps, numPages)
  {
    HandOver(free, v, loans, r, Owned(loans[r], ps), {}, v, ps, numPages);
  }

  /** A loan ends: part of its pages goes to the free list, the rest to the cache. */
  lemma HandOver<K>(free: set<int>, v: View, loans: map<K, Loan>, r: K, back: set<int>, kept: set<int>, v': View,
      ps: nat, numPages: nat)
    requires ps > 0 && Partition(free, v, loans, ps, numPages) && r in loans
    requires Owned(loans[r], ps) == back + kept && back !! kept
    requires OwnsPages(v', ps, numPages) && StoredPages(v', ps) == StoredPages(v, ps) + kept
    requires forall p | p in v :: p in v' && v'[p] == v[p]
    ensures Partition(free + back, v', loans - {r}, ps, numPages)
  {
    hide OwnsPages, StoredPages, Owned, PagedRow;
    var loans' := loans - {r};
    forall page
      ensures 1 <= page <= numPages <==> Held(free + back, v', loans', ps, page)
    {
      if Held(free, v, loans, ps, page) && page !in free && page !in StoredPages(v, ps) {
        var s :| s in loans && page in Owned(loans[s], ps);
        assert s != r ==> s in loans' && loans'[s] == loans[s];
      }
      if page in back + kept {
        assert r in loans && page in Owned(loans[r], ps);
        assert Held(free, v, loans, ps, page);
      }
      if s :| s in loans' && page in Owned(loans'[s], ps) {
        assert s in loans && page in Owned(loans[s], ps);
      }
    }
    forall s | s in loans'
      ensures LoanOk(loans'[s], v', ps)
      ensures Owned(loans'[s], ps) !! free + back && Owned(loans'[s], ps) !! StoredPages(v', ps)
    {
      assert LoanOk(loans[s], v, ps);
      assert Owned(loans[s], ps) !! Owned(loans[r], ps);
    }
  }

  // ---------- Extension ----------

  /** From a page boundary on, the slots handed out fill exactly the pages taken from the
      front of the free list, one page of the row to each. */
  lemma SlotFromBoundary(p: nat, end: nat, q: nat, last: int, free: seq<int>, ps: nat)
    requires ps > 0 && p <= q < end && PagesOpened(p, end, ps) <= |free| && Aligned(p, ps)
    ensures 0 <= q / ps - p / ps < PagesOpened(p, end, ps)
    ensures ExtendOne(p, end, last, free, ps)[q - p] / ps == free[q / ps - p / ps]
  {
    SlotClosedForm(p, end, q, last, free, ps);
    PageIndexInRange(p, end, q, ps);
    SlotInPage(free[q / ps - p / ps], q, ps);
  }

  lemma SlotInPage(page: int, q: nat, ps: nat)
    requires ps > 0
    ensures (page * ps + q % ps) / ps == page && (page * ps + q % ps) % ps == q % ps
  {
    DivModUnique(page * ps + q % ps, ps, page, q % ps);
  }

  lemma PageIndexInRange(p: nat, end: nat, q: nat, ps: nat)
    requires ps > 0 && p <= q < end && Aligned(p, ps)
    ensures CeilDiv(p, ps) == p / ps && CeilDiv(p, ps) * ps == p
    ensures 0 <= q / ps - p / ps < PagesOpened(p, end, ps)
  {
    AlignedMod(p, ps);
    CeilDivBounds(p, ps);
    PagesOpenedIsCeilDifference(p, end, ps);
    CeilDivBounds(end, ps);
    FloorMonotone(p, q, ps);
    FloorBelowCeil(q, end, CeilDiv(end, ps), ps);
  }

  lemma FloorMonotone(p: nat, q: nat, ps: nat)
    requires ps > 0 && p <= q
    ensures p / ps <= q / ps
  {
    if q / ps < p / ps {
      MulMonotone(q / ps + 1, p / ps, ps);
    }
  }

  lemma FloorBelowCeil(q: nat, end: nat, c: nat, ps: nat)
    requires ps > 0 && q < end <= c * ps
    ensures q / ps < c
  {
    if c <= q / ps {
      MulMonotone(c, q / ps, ps);
    }
  }

  /** The `k`-th page taken is used by the first position of the `k`-th page of the row. */
  lemma PageIsUsed(p: nat, end: nat, k: nat, ps: nat) returns (q: nat)
    requires ps > 0 && p <= end && Aligned(p, ps) && k < PagesOpened(p, end, ps)
    ensures p <= q < end && q / ps - p / ps == k
  {
    PagesOpenedIsCeilDifference(p, end, ps);
    AlignedMod(p, ps);
    CeilDivBounds(p, ps);
    CeilDivBounds(end, ps);
    q := NthPage(p / ps, k, CeilDiv(end, ps), end, ps);
  }

  lemma NthPage(first: nat, k: nat, c: nat, end: nat, ps: nat) returns (q: nat)
    requires ps > 0 && first + k < c && c * ps < end + ps
    ensures first * ps <= q < end && q / ps == first + k
  {
    q := (first + k) * ps;
    DivModUnique(q, ps, first + k, 0);
    MulMonotone(first, first + k, ps);
    MulMonotone(first + k + 1, c, ps);
    assert (first + k + 1) * ps == q + ps;
  }

  lemma SamePageIndex(i: nat, j: nat, ps: nat)
    requires ps > 0
    ensures AlignLen(i, ps) == AlignLen(j, ps) <==> i / ps == j / ps
  {
    AlignLenIsFloor(i, ps);
    AlignLenIsFloor(j, ps);
    if i / ps * ps == j / ps * ps {
      DivModUnique(i / ps * ps, ps, i / ps, 0);
      DivModUnique(j / ps * ps, ps, j / ps, 0);
    }
  }

  /** Position `i` of the row lies in the page taken for its page index. */
  ghost predicate FillsPages(row: seq<int>, p: nat, taken: seq<int>, ps: nat)
    requires ps > 0
  {
    forall i: nat | p <= i < |row| :: 0 <= i / ps - p / ps < |taken| && row[i] / ps == taken[i / ps - p / ps]
  }

  /** An extended row: its new part is paged and owns exactly the pages taken. */
  lemma ExtendedRow(prefix: seq<int>, end: nat, last: int, free: seq<int>, ps: nat)
    requires ps > 0 && |prefix| <= end && PagesOpened(|prefix|, end, ps) <= |free|
    requires Aligned(|prefix|, ps) && Distinct(free)
    ensures var row := prefix + ExtendOne(|prefix|, end, last, free, ps);
      && PagedRow(row, |prefix|, ps)
      && RowPages(row, |prefix|, end, ps) == Elements(free[..PagesOpened(|prefix|, end, ps)])
  {
    var p, taken := |prefix|, free[..PagesOpened(|prefix|, end, ps)];
    var row := prefix + ExtendOne(p, end, last, free, ps);
    forall i: nat | p <= i < end
      ensures 0 <= i / ps - p / ps < |taken| && row[i] / ps == taken[i / ps - p / ps]
    {
      SlotFromBoundary(p, end, i, last, free, ps);
    }
    FilledIsPaged(row, p, taken, ps);
    FilledPages(row, p, taken, ps);
  }

  lemma FilledIsPaged(row: seq<int>, p: nat, taken: seq<int>, ps: nat)
    requires ps > 0 && Distinct(taken) && FillsPages(row, p, taken, ps)
    ensures PagedRow(row, p, ps)
  {
    forall i: nat, j: nat | p <= i < |row| && p <= j < |row|
      ensures AlignLen(i, ps) == AlignLen(j, ps) <==> row[i] / ps == row[j] / ps
    {
      SamePageIndex(i, j, ps);
    }
  }

  lemma FilledPages(row: seq<int>, p: nat, taken: seq<int>, ps: nat)
    requires ps > 0 && p <= |row| && Aligned(p, ps) && FillsPages(row, p, taken, ps)
    requires |taken| == PagesOpened(p, |row|, ps)
    ensures RowPages(row, p, |row|, ps) == Elements(taken)
  {
    forall page
      ensures page in RowPages(row, p, |row|, ps) <==> page in taken
    {
      if k: nat :| k < |taken| && taken[k] == page {
        var q := PageIsUsed(p, |row|, k, ps);
        assert row[q] / ps == page;
      }
    }
  }

  /** Extending a loan moves the pages at the front of the free list to the loan. */
  lemma ExtendKeepsPartition<K>(free: seq<int>, v: View, loans: map<K, Loan>, r: K, end: nat, last: int, ps: nat,
      numPages: nat)
    requires ps > 0 && Distinct(free) && Partition(Elements(free), v, loans, ps, numPages) && r in loans
    requires |loans[r].row| == |loans[r].path| <= end && PagesOpened(|loans[r].path|, end, ps) <= |free|
    ensures var l := loans[r];
      var l' := Loan(l.path, l.row + ExtendOne(|l.path|, end, last, free, ps));
      Partition(Elements(free[PagesOpened(|l.path|, end, ps)..]), v, loans[r := l'], ps, numPages)
  {
    hide OwnsPages, StoredPages, PagedRow, RowPages;
    var l := loans[r];
    var taken := PagesOpened(|l.path|, end, ps);
    var l' := Loan(l.path, l.row + ExtendOne(|l.path|, end, last, free, ps));
    var loans' := loans[r := l'];
    ExtendedRow(l.row, end, last, free, ps);
    assert l'.row[..|l.path|] == l.row[..|l.path|];
    assert free == free[..taken] + free[taken..];
    assert Owned(l, ps) == {} by { EmptyStretch(l.row, |l.path|, ps); }
    assert Elements(free) == Elements(free[..taken]) + Elements(free[taken..]);
    assert Elements(free[..taken]) !! Elements(free[taken..]);
    TakeOver(Elements(free), v, loans, r, l', Elements(free[..taken]), Elements(free[taken..]), ps, numPages);
  }

  lemma EmptyStretch(row: seq<int>, from: nat, ps: nat)
    requires ps > 0 && |row| <= from
    ensures RowPages(row, from, |row|, ps) == {}
  {
  }

  /** A loan takes over free pages beside those it owns. */
  lemma TakeOver<K>(free: set<int>, v: View, loans: map<K, Loan>, r: K, l': Loan, taken: set<int>, left: set<int>,
      ps: nat, numPages: nat)
    requires ps > 0 && Partition(free, v, loans, ps, numPages) && r in loans
    requires LoanOk(l', v, ps) && Owned(l', ps) == Owned(loans[r], ps) + taken && free == taken + left && taken !! left
    ensures Partition(left, v, loans[r := l'], ps, numPages)
  {
    hide OwnsPages, StoredPages, Owned, LoanOk;
    var loans' := loans[r := l'];
    forall page
      ensures 1 <= page <= numPages <==> Held(left, v, loans', ps, page)
    {
      assert 1 <= page <= numPages <==> Held(free, v, loans, ps, page);
      if s :| s in loans && page in Owned(loans[s], ps) {
        assert s in loans' && page in Owned(loans'[s], ps);
      }
      if s :| s in loans' && page in Owned(loans'[s], ps) {
        assert s != r ==> s in loans && page in Owned(loans[s], ps);
      }
      if page in taken {
        assert r in loans' && page in Owned(loans'[r], ps);
      }
    }
  }

  // ---------- A batch of extensions ----------

  /** The loans after the first `k` requests of a batch got their slots. */
  ghost function LoansAfter<K>(loans: map<K, Loan>, reqs: seq<K>, slots: seq<seq<int>>, k: nat): (r: map<K, Loan>)
    requires |slots| == |reqs| && k <= |reqs| && forall i | 0 <= i < |reqs| :: reqs[i] in loans
    ensures r.Keys == loans.Keys
  {
    if k == 0 then loans
    else (
      var r := reqs[k - 1];
      LoansAfter(loans, reqs, slots, k - 1)[r := Loan(loans[r].path, loans[r].row + slots[k - 1])])
  }

  lemma {:induction false} NotYetExtended<K>(loans: map<K, Loan>, reqs: seq<K>, slots: seq<seq<int>>, k: nat, r: K)
    requires |slots| == |reqs| && k <= |reqs| && (forall i | 0 <= i < |reqs| :: reqs[i] in loans) && r in loans
    requires forall i | 0 <= i < k :: reqs[i] != r
    ensures LoansAfter(loans, reqs, slots, k)[r] == loans[r]
  {
    if k > 0 {
      NotYetExtended(loans, reqs, slots, k - 1, r);
    }
  }

  lemma {:induction false} Extended<K>(loans: map<K, Loan>, reqs: seq<K>, slots: seq<seq<int>>, k: nat, i: nat)
    requires |slots| == |reqs| && i < k <= |reqs| && Distinct(reqs) && forall i | 0 <= i < |reqs| :: reqs[i] in loans
    ensures LoansAfter(loans, reqs, slots, k)[reqs[i]] == Loan(loans[reqs[i]].path, loans[reqs[i]].row + slots[i])
  {
    if i < k - 1 {
      Extended(loans, reqs, slots, k - 1, i);
    }
  }

  /** Entry `i` of an extend batch grows the waiting loan of request `reqs[i]` by `slots[i]`. */
  ghost predicate GrowsLoans<K>(loans: map<K, Loan>, reqs: seq<K>, batch: seq<Extend>, slots: seq<seq<int>>,
      free: seq<int>, ps: nat)
    requires ps > 0
  {
    && |slots| == |batch| == |reqs| && Distinct(reqs) && Growing(batch) && OpenedBefore(batch, |batch|, ps) <= |free|
    && (forall i | 0 <= i < |reqs| :: reqs[i] in loans && |loans[reqs[i]].row| == |loans[reqs[i]].path| == batch[i].pre)
    && (forall i: nat | i < |reqs| ::
         OpenedBefore(batch, i + 1, ps) <= |free| && slots[i] == SlotsOf(batch, i, free, ps))
  }

  /** Extending a whole batch moves the pages at the front of the free list to the loans. */
  lemma {:induction false} ExtendBatchKeepsPartition<K>(free: seq<int>, v: View, loans: map<K, Loan>, reqs: seq<K>,
      batch: seq<Extend>, slots: seq<seq<int>>, k: nat, ps: nat, numPages: nat)
    requires ps > 0 && GrowsLoans(loans, reqs, batch, slots, free, ps) && k <= |reqs|
    requires Distinct(free) && Partition(Elements(free), v, loans, ps, numPages)
    ensures OpenedBefore(batch, k, ps) <= |free|
    ensures Partition(Elements(free[OpenedBefore(batch, k, ps)..]), v, LoansAfter(loans, reqs, slots, k), ps, numPages)
    decreases k
  {
    hide Partition, SlotsOf;
    if k == 0 {
      assert free[0..] == free;
    } else {
      ExtendBatchKeepsPartition(free, v, loans, reqs, batch, slots, k - 1, ps, numPages);
      NotYetExtended(loans, reqs, slots, k - 1, reqs[k - 1]);
      ExtendOneOfBatch(free, v, loans, LoansAfter(loans, reqs, slots, k - 1), reqs, batch, slots, k - 1, ps, numPages);
    }
  }

  lemma ExtendOneOfBatch<K>(free: seq<int>, v: View, loans: map<K, Loan>, before: map<K, Loan>, reqs: seq<K>,
      batch: seq<Extend>, slots: seq<seq<int>>, i: nat, ps: nat, numPages: nat)
    requires ps > 0 && GrowsLoans(loans, reqs, batch, slots, free, ps) && i < |reqs| && reqs[i] in before
    requires OpenedBefore(batch, i, ps) <= |free| && before[reqs[i]] == loans[reqs[i]] && Distinct(free)
    requires Partition(Elements(free[OpenedBefore(batch, i, ps)..]), v, before, ps, numPages)
    ensures OpenedBefore(batch, i + 1, ps) <= |free|
    ensures Partition(Elements(free[OpenedBefore(batch, i + 1, ps)..]), v,
                      before[reqs[i] := Loan(loans[reqs[i]].path, loans[reqs[i]].row + slots[i])], ps, numPages)
  {
    hide Partition;
    var left, e := free[OpenedBefore(batch, i, ps)..], batch[i];
    BeforeMonotone(batch, i + 1, |batch|, ps);
    assert slots[i] == SlotsOf(batch, i, free, ps);
    ExtendKeepsPartition(left, v, before, reqs[i], e.len, e.last, ps, numPages);
    assert left[PagesOpened(e.pre, e.len, ps)..] == free[OpenedBefore(batch, i + 1, ps)..];
  }

  lemma {:induction false} ExtendBatchKeepsCover<K>(loans: map<K, Loan>, reqs: seq<K>, slots: seq<seq<int>>, k: nat,
      handles: seq<seq<Token>>)
    requires |slots| == |reqs| && k <= |reqs| && Distinct(reqs) && forall i | 0 <= i < |reqs| :: reqs[i] in loans
    requires HandlesCover(loans, handles)
    ensures HandlesCover(LoansAfter(loans, reqs, slots, k), handles)
    decreases k
  {
    hide HandlesCover;
    if k > 0 {
      var r := reqs[k - 1];
      ExtendBatchKeepsCover(loans, reqs, slots, k - 1, handles);
      NotYetExtended(loans, reqs, slots, k - 1, r);
      ExtendKeepsCover(LoansAfter(loans, reqs, slots, k - 1), handles, r,
          Loan(loans[r].path, loans[r].row + slots[k - 1]));
    }
  }

  // ---------- Lock handles ----------

  ghost function Holders<K>(loans: map<K, Loan>, path: seq<Token>): set<K> {
    set r | r in loans && loans[r].path == path
  }

  /** Every loan has a handle of its own at its prefix.  There may be more handles than loans:
      a request that is admitted again before it ran is locked again. */
  ghost predicate HandlesCover<K>(loans: map<K, Loan>, handles: seq<seq<Token>>) {
    forall path :: |Holders(loans, path)| <= multiset(handles)[path]
  }

  lemma CoveredIsHeld<K>(loans: map<K, Loan>, handles: seq<seq<Token>>, r: K)
    requires HandlesCover(loans, handles) && r in loans
    ensures loans[r].path in handles
  {
    assert r in Holders(loans, loans[r].path);
    assert |Holders(loans, loans[r].path)| > 0;
    assert loans[r].path in multiset(handles);
  }

  lemma AdmitKeepsCover<K>(loans: map<K, Loan>, handles: seq<seq<Token>>, r: K, l: Loan)
    requires HandlesCover(loans, handles)
    ensures HandlesCover(loans[r := l], [l.path] + handles)
  {
    var loans', handles' := loans[r := l], [l.path] + handles;
    forall path
      ensures |Holders(loans', path)| <= multiset(handles')[path]
    {
      if path == l.path {
        assert Holders(loans', path) == Holders(loans, path) + {r};
        assert multiset(handles') == multiset{l.path} + multiset(handles);
      } else {
        SubsetCard(Holders(loans', path), Holders(loans, path));
        assert multiset(handles') == multiset{l.path} + multiset(handles);
      }
    }
  }

  lemma ReleaseKeepsCover<K>(loans: map<K, Loan>, handles: seq<seq<Token>>, handles': seq<seq<Token>>, r: K)
    requires HandlesCover(loans, handles) && r in loans
    requires multiset(handles') == multiset(handles) - multiset{loans[r].path}
    ensures HandlesCover(loans - {r}, handles')
  {
    forall path
      ensures |Holders(loans - {r}, path)| <= multiset(handles')[path]
    {
      if path == loans[r].path {
        assert Holders(loans - {r}, path) == Holders(loans, path) - {r};
        assert r in Holders(loans, path);
      } else {
        assert Holders(loans - {r}, path) == Holders(loans, path);
      }
    }
  }

  lemma ExtendKeepsCover<K>(loans: map<K, Loan>, handles: seq<seq<Token>>, r: K, l': Loan)
    requires HandlesCover(loans, handles) && r in loans && l'.path == loans[r].path
    ensures HandlesCover(loans[r := l'], handles)
  {
    forall path
      ensures |Holders(loans[r := l'], path)| <= multiset(handles)[path]
    {
      assert Holders(loans[r := l'], path) == Holders(loans, path);
    }
  }

  // ---------- Layout inside pages ----------

  /** Position `i` of the row sits at offset `i % ps` of its page, and the positions of one
      page of the row lie in one page of memory. */
  ghost predicate LaidOut(row: seq<int>, ps: nat)
    requires ps > 0
  {
    forall i: nat | i < |row| :: row[i] % ps == i % ps && row[i] / ps == row[AlignLen(i, ps)] / ps
  }

  ghost predicate AllLaidOut<K>(v: View, loans: map<K, Loan>, ps: nat)
    requires ps > 0
  {
    (forall p | p in v :: LaidOut(v[p], ps)) && (forall r | r in loans :: LaidOut(loans[r].row, ps))
  }

  lemma LaidOutPrefix(row: seq<int>, n: nat, ps: nat)
    requires ps > 0 && LaidOut(row, ps) && n <= |row|
    ensures LaidOut(row[..n], ps)
  {
  }

  /** From a page boundary on, a row may be continued by another laid-out row. */
  lemma LaidOutJoin(a: seq<int>, row: seq<int>, m: nat, ps: nat)
    requires ps > 0 && LaidOut(a, ps) && LaidOut(row, ps) && m == |a| <= |row| && Aligned(m, ps)
    ensures LaidOut(a + row[m..], ps)
  {
    var s := a + row[m..];
    forall i: nat | i < |s|
      ensures s[i] % ps == i % ps && s[i] / ps == s[AlignLen(i, ps)] / ps
    {
      if i < m {
        assert s[i] == a[i] && s[AlignLen(i, ps)] == a[AlignLen(i, ps)];
      } else {
        AlignLenAtLeast(m, i, ps);
        assert s[i] == row[i] && s[AlignLen(i, ps)] == row[AlignLen(i, ps)];
      }
    }
  }

  lemma ReleaseKeepsLayout<K>(v: View, loans: map<K, Loan>, r: K, key: seq<Token>, m: nat, ps: nat)
    requires ps > 0 && AllLaidOut(v, loans, ps) && r in loans && IsMatchLen(v, key, ps, m)
    requires |key| <= |loans[r].row| && |v[key[..m]]| == m
    ensures m <= |key|
    ensures AllLaidOut(AddPages(v, key, v[key[..m]] + loans[r].row[m..|key|], m, ps), loans - {r}, ps)
  {
    hide LaidOut, IsMatchLen, AddPages;
    MatchLenFacts(v, key, m, ps);
    var row := loans[r].row[..|key|];
    var slots := v[key[..m]] + loans[r].row[m..|key|];
    assert row[m..] == loans[r].row[m..|key|];
    LaidOutPrefix(loans[r].row, |key|, ps);
    LaidOutJoin(v[key[..m]], row, m, ps);
    AddPagesInserts(v, key, slots, m, ps);
    var v' := AddPages(v, key, slots, m, ps);
    forall p | p in v'
      ensures LaidOut(v'[p], ps)
    {
      if p !in v {
        LaidOutPrefix(slots, |p|, ps);
      }
    }
  }

  /** The slots handed out from a page boundary continue a laid-out row. */
  lemma ExtendedRowLaidOut(prefix: seq<int>, end: nat, last: int, free: seq<int>, ps: nat)
    requires ps > 0 && |prefix| <= end && PagesOpened(|prefix|, end, ps) <= |free|
    requires Aligned(|prefix|, ps) && LaidOut(prefix, ps)
    ensures LaidOut(prefix + ExtendOne(|prefix|, end, last, free, ps), ps)
  {
    var p := |prefix|;
    var row := prefix + ExtendOne(p, end, last, free, ps);
    forall i: nat | i < end
      ensures row[i] % ps == i % ps && row[i] / ps == row[AlignLen(i, ps)] / ps
    {
      if i < p {
        assert row[i] == prefix[i] && row[AlignLen(i, ps)] == prefix[AlignLen(i, ps)];
      } else {
        AlignLenAtLeast(p, i, ps);
        SlotOffset(p, end, i, last, free, ps);
        SlotFromBoundary(p, end, i, last, free, ps);
        SlotFromBoundary(p, end, AlignLen(i, ps), last, free, ps);
        PageIndexOfStart(i, ps);
      }
    }
  }

  lemma PageIndexOfStart(i: nat, ps: nat)
    requires ps > 0
    ensures AlignLen(i, ps) / ps == i / ps
  {
    AlignLenIsFloor(i, ps);
    DivModUnique(i / ps * ps, ps, i / ps, 0);
  }

  lemma SlotOffset(p: nat, end: nat, q: nat, last: int, free: seq<int>, ps: nat)
    requires ps > 0 && p <= q < end && PagesOpened(p, end, ps) <= |free| && Aligned(p, ps)
    ensures ExtendOne(p, end, last, free, ps)[q - p] % ps == q % ps
  {
    SlotClosedForm(p, end, q, last, free, ps);
    PageIndexInRange(p, end, q, ps);
    SlotInPage(free[q / ps - p / ps], q, ps);
  }

  lemma {:induction false} ExtendBatchKeepsLayout<K>(free: seq<int>, v: View, loans: map<K, Loan>, reqs: seq<K>,
      batch: seq<Extend>, slots: seq<seq<int>>, k: nat, ps: nat)
    requires ps > 0 && GrowsLoans(loans, reqs, batch, slots, free, ps) && k <= |reqs| && AllLaidOut(v, loans, ps)
    requires forall r | r in loans :: LoanOk(loans[r], v, ps)
    ensures AllLaidOut(v, LoansAfter(loans, reqs, slots, k), ps)
    decreases k
  {
    hide LaidOut, SlotsOf;
    if k > 0 {
      ExtendBatchKeepsLayout(free, v, loans, reqs, batch, slots, k - 1, ps);
      GrownRowLaidOut(free, v, loans, reqs, batch, slots, k - 1, ps);
    }
  }

  lemma GrownRowLaidOut<K>(free: seq<int>, v: View, loans: map<K, Loan>, reqs: seq<K>, batch: seq<Extend>,
                           slots: seq<seq<int>>, i: nat, ps: nat)
    requires ps > 0 && GrowsLoans(loans, reqs, batch, slots, free, ps) && i < |reqs| && AllLaidOut(v, loans, ps)
    requires forall r | r in loans :: LoanOk(loans[r], v, ps)
    ensures LaidOut(loans[reqs[i]].row + slots[i], ps)
  {
    hide LaidOut, PagedRow;
    BeforeMonotone(batch, i + 1, |batch|, ps);
    assert slots[i] == SlotsOf(batch, i, free, ps);
    assert LoanOk(loans[reqs[i]], v, ps);
    ExtendedRowLaidOut(loans[reqs[i]].row, batch[i].len, batch[i].last, free[OpenedBefore(batch, i, ps)..], ps);
  }
}
