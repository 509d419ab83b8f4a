/** A decode step under the contract of `alloc_decode`, whose lengths count the new token: the row of
    each running request grows by one slot, in its last page or in a page taken from the free list. */
module DecodeGrowth {
  import opened Pages
  import opened Orders
  import opened PrefixMap
  import opened PagedMemory
  import opened PageOwnership
  import opened RequestRows
  import opened PageLedger

  // ---- One token -----------------------------------------------------------------------------

  /** The slot follows the row: the next one of its last page, or the first of a page nobody in the
      row uses. */
  ghost predicate Follows(row: seq<int>, from: nat, slot: int, ps: nat)
    requires ps > 0
  {
    var n := |row|;
    if n % ps == 0 then slot % ps == 0 && forall i: nat | from <= i < n :: row[i] / ps != slot / ps
    else slot == row[n - 1] + 1
  }

  lemma StartOf(n: nat, ps: nat)
    requires ps > 0
    ensures n % ps == 0 ==> AlignLen(n, ps) == n
    ensures n % ps != 0 ==> n > 0 && AlignLen(n, ps) == AlignLen(n - 1, ps) && AlignLen(n, ps) < n
  {
    AlignedMod(n, ps);
    if Aligned(n, ps) {
      WithinPage(n, n, ps);
    } else {
      assert Aligned(0, ps);
      WithinPage(AlignLen(n, ps), n - 1, ps);
    }
  }

  /** Inside a page the next slot has the next offset. */
  lemma NextInPage(last: int, n: nat, ps: nat)
    requires ps > 0 && n > 0 && n % ps != 0 && last % ps == (n - 1) % ps
    ensures (last + 1) / ps == last / ps && (last + 1) % ps == n % ps
  {
    var r := (n - 1) % ps;
    if r == ps - 1 {
      DivModUnique(n, ps, (n - 1) / ps + 1, 0);
    } else {
      DivModUnique(n, ps, (n - 1) / ps, r + 1);
      DivModUnique(last + 1, ps, last / ps, r + 1);
    }
  }

  lemma SlotPage(row: seq<int>, from: nat, slot: int, ps: nat)
    requires ps > 0 && LaidOut(row, ps) && from <= |row| && Follows(row, from, slot, ps)
    ensures slot % ps == |row| % ps
    ensures |row| % ps != 0 ==> |row| > 0 && slot / ps == row[|row| - 1] / ps
  {
    if |row| % ps != 0 {
      StartOf(|row|, ps);
      NextInPage(row[|row| - 1], |row|, ps);
    }
  }

  lemma GrownRowPaged(row: seq<int>, from: nat, slot: int, ps: nat)
    requires ps > 0 && LaidOut(row, ps) && PagedRow(row, from, ps) && from <= |row| && Aligned(from, ps)
    requires Follows(row, from, slot, ps)
    ensures PagedRow(row + [slot], from, ps)
  {
    hide LaidOut, PagedRow, AlignLen;
    var n, row' := |row|, row + [slot];
    SlotPage(row, from, slot, ps);
    StartOf(n, ps);
    forall i: nat | from <= i < n
      ensures AlignLen(i, ps) == AlignLen(n, ps) <==> row'[i] / ps == row'[n] / ps
    {
      if n % ps != 0 {
        SamePage(row, from, i, n - 1, ps);
      }
    }
    forall i: nat, j: nat | from <= i < n && from <= j < n
      ensures AlignLen(i, ps) == AlignLen(j, ps) <==> row'[i] / ps == row'[j] / ps
    {
      SamePage(row, from, i, j, ps);
    }
    MakePaged(row', from, ps);
  }

  lemma MakePaged(row: seq<int>, from: nat, ps: nat)
    requires ps > 0 && row != []
    requires forall i: nat, j: nat | from <= i < |row| - 1 && from <= j < |row| - 1 ::
               AlignLen(i, ps) == AlignLen(j, ps) <==> row[i] / ps == row[j] / ps
    requires forall i: nat | from <= i < |row| - 1 ::
               AlignLen(i, ps) == AlignLen(|row| - 1, ps) <==> row[i] / ps == row[|row| - 1] / ps
    ensures PagedRow(row, from, ps)
  {
    hide AlignLen;
  }

  lemma GrownRowLaidOutToo(row: seq<int>, from: nat, slot: int, ps: nat)
    requires ps > 0 && LaidOut(row, ps) && from <= |row| && Follows(row, from, slot, ps)
    ensures LaidOut(row + [slot], ps)
  {
    hide AlignLen;
    var n, row' := |row|, row + [slot];
    SlotPage(row, from, slot, ps);
    StartOf(n, ps);
    forall i: nat | i < |row'|
      ensures row'[i] % ps == i % ps && row'[i] / ps == row'[AlignLen(i, ps)] / ps
    {
      if i < n {
        assert row'[i] == row[i] && row'[AlignLen(i, ps)] == row[AlignLen(i, ps)];
      } else if n % ps != 0 {
        assert row[n - 1] / ps == row[AlignLen(n - 1, ps)] / ps;
      }
    }
  }

  /** The row's pages grow by the slot's page, which is new only at a page boundary. */
  lemma GrownRowPages(row: seq<int>, from: nat, slot: int, ps: nat)
    requires ps > 0 && LaidOut(row, ps) && from <= |row| && Aligned(from, ps) && Follows(row, from, slot, ps)
    ensures RowPages(row + [slot], from, |row| + 1, ps)
         == RowPages(row, from, |row|, ps) + if |row| % ps == 0 then {slot / ps} else {}
  {
    hide LaidOut;
    var n, row' := |row|, row + [slot];
    SlotPage(row, from, slot, ps);
    StartOf(n, ps);
    if n % ps != 0 {
      AlignLenAtLeast(from, n, ps);
    }
    assert forall i: nat | from <= i < n :: row'[i] == row[i];
    assert row'[n] == slot;
    var grown := RowPages(row, from, n, ps) + if n % ps == 0 then {slot / ps} else {};
    forall page | page in grown
      ensures page in RowPages(row', from, n + 1, ps)
    {
      if page in RowPages(row, from, n, ps) {
        var i: nat :| from <= i < n && row[i] / ps == page;
        assert row'[i] / ps == page;
      } else {
        assert row'[n] / ps == page;
      }
    }
    assert forall page | page in RowPages(row', from, n + 1, ps) :: page in grown;
  }

  // ---- The ledger ----------------------------------------------------------------------------

  lemma OneSlot(n: nat, last: int, free: seq<int>, ps: nat)
    requires ps > 0 && PagesOpened(n, n + 1, ps) <= |free|
    ensures PagesOpened(n, n + 1, ps) == if n % ps == 0 then 1 else 0
    ensures ExtendOne(n, n + 1, last, free, ps) == [if n % ps == 0 then free[0] * ps else last + 1]
  {
    assert PagesOpened(n + 1, n + 1, ps) == 0;
  }

  /** The slot the allocator hands out follows the row. */
  lemma SlotFollows<K>(free: seq<int>, v: View, loans: map<K, Loan>, r: K, last: int, ps: nat, numPages: nat)
    requires ps > 0 && Partition(Elements(free), v, loans, ps, numPages) && r in loans
    requires PagesOpened(|loans[r].row|, |loans[r].row| + 1, ps) <= |free|
    requires |loans[r].row| > 0 ==> last == loans[r].row[|loans[r].row| - 1]
    ensures |ExtendOne(|loans[r].row|, |loans[r].row| + 1, last, free, ps)| == 1
    ensures var slot := ExtendOne(|loans[r].row|, |loans[r].row| + 1, last, free, ps)[0];
            && Follows(loans[r].row, |loans[r].path|, slot, ps)
            && (|loans[r].row| % ps == 0 ==> free != [] && slot / ps == free[0])
  {
    var l := loans[r];
    var n := |l.row|;
    OneSlot(n, last, free, ps);
    if n % ps == 0 {
      DivModUnique(free[0] * ps, ps, free[0], 0);
      assert free[0] in Elements(free);
      assert Owned(l, ps) !! Elements(free);
      forall i: nat | |l.path| <= i < n
        ensures l.row[i] / ps != free[0]
      {
        assert l.row[i] / ps in Owned(l, ps);
      }
    } else {
      StartOf(n, ps);
    }
  }

  /** One running request grows by one token. */
  lemma GrowKeepsPartition<K>(free: seq<int>, v: View, loans: map<K, Loan>, r: K, last: int, ps: nat, numPages: nat)
    requires ps > 0 && Distinct(free) && Partition(Elements(free), v, loans, ps, numPages) && AllLaidOut(v, loans, ps)
    requires r in loans && PagesOpened(|loans[r].row|, |loans[r].row| + 1, ps) <= |free|
    requires |loans[r].row| > 0 ==> last == loans[r].row[|loans[r].row| - 1]
    ensures var l := loans[r];
            var l' := Loan(l.path, l.row + ExtendOne(|l.row|, |l.row| + 1, last, free, ps));
            && Partition(Elements(free[PagesOpened(|l.row|, |l.row| + 1, ps)..]), v, loans[r := l'], ps, numPages)
            && AllLaidOut(v, loans[r := l'], ps)
  {
    hide OwnsPages, StoredPages, PagedRow, RowPages, LaidOut, Follows;
    var l := loans[r];
    var n, taken := |l.row|, PagesOpened(|l.row|, |l.row| + 1, ps);
    assert LoanOk(l, v, ps);
    SlotFollows(free, v, loans, r, last, ps, numPages);
    var slot := ExtendOne(n, n + 1, last, free, ps)[0];
    var l' := Loan(l.path, l.row + [slot]);
    GrownRowPaged(l.row, |l.path|, slot, ps);
    GrownRowLaidOutToo(l.row, |l.path|, slot, ps);
    GrownRowPages(l.row, |l.path|, slot, ps);
    OneSlot(n, last, free, ps);
    assert l'.row[..|l.path|] == l.row[..|l.path|];
    assert ExtendOne(n, n + 1, last, free, ps) == [slot];
    assert free == free[..taken] + free[taken..];
    assert Elements(free) == Elements(free[..taken]) + Elements(free[taken..]);
    assert Elements(free[..taken]) == if n % ps == 0 then {free[0]} else {};
    assert Elements(free[..taken]) !! Elements(free[taken..]);
    TakeOver(Elements(free), v, loans, r, l', Elements(free[..taken]), Elements(free[taken..]), ps, numPages);
  }

  // ---- A decode batch ------------------------------------------------------------------------

  /** Entry `i` grows the row of request `reqs[i]`, of length `lens[i] - 1`, by its slot. */
  ghost predicate GrowsRunning<K>(
    loans: map<K, Loan>, reqs: seq<K>, lens: seq<nat>, lasts: seq<int>, slots: seq<seq<int>>, free: seq<int>, ps: nat)
    requires ps > 0
  {
    && |slots| == |reqs| == |lens| == |lasts| && Distinct(reqs) && (forall i | 0 <= i < |lens| :: lens[i] >= 1)
    && Growing(DecodeBatch(lens, lasts)) && OpenedBefore(DecodeBatch(lens, lasts), |lens|, ps) <= |free|
    && (forall i: nat | i < |reqs| :: RunsAt(loans, reqs[i], lens[i], lasts[i]))
    && (forall i: nat | i < |reqs| ::
          && OpenedBefore(DecodeBatch(lens, lasts), i + 1, ps) <= |free|
          && slots[i] == SlotsOf(DecodeBatch(lens, lasts), i, free, ps))
  }

  ghost predicate RunsAt<K>(loans: map<K, Loan>, r: K, len: nat, last: int) {
    r in loans && len == |loans[r].row| + 1 && (len > 1 ==> last == loans[r].row[len - 2])
  }

  /** A decode batch keeps the partition of the pages and the layout of the rows. */
  lemma {:induction false} DecodeKeepsPartition<K>(free: seq<int>, v: View, loans: map<K, Loan>, reqs: seq<K>,
      lens: seq<nat>, lasts: seq<int>, slots: seq<seq<int>>, k: nat, ps: nat, numPages: nat)
    requires ps > 0 && GrowsRunning(loans, reqs, lens, lasts, slots, free, ps) && k <= |reqs| && Distinct(free)
    requires Partition(Elements(free), v, loans, ps, numPages) && AllLaidOut(v, loans, ps)
    ensures OpenedBefore(DecodeBatch(lens, lasts), k, ps) <= |free|
    ensures Partition(Elements(free[OpenedBefore(DecodeBatch(lens, lasts), k, ps)..]), v,
        LoansAfter(loans, reqs, slots, k), ps, numPages)
    ensures AllLaidOut(v, LoansAfter(loans, reqs, slots, k), ps)
    decreases k
  {
    hide Partition, AllLaidOut, SlotsOf;
    if k == 0 {
      assert free[0..] == free;
    } else {
      DecodeKeepsPartition(free, v, loans, reqs, lens, lasts, slots, k - 1, ps, numPages);
      NotYetExtended(loans, reqs, slots, k - 1, reqs[k - 1]);
      GrowOneOfBatch(free, v, loans, LoansAfter(loans, reqs, slots, k - 1), reqs, lens, lasts, slots, k - 1, ps,
          numPages);
    }
  }

  lemma GrowOneOfBatch<K>(
    free: seq<int>, v: View, loans: map<K, Loan>, before: map<K, Loan>, reqs: seq<K>, lens: seq<nat>, lasts: seq<int>,
    slots: seq<seq<int>>, i: nat, ps: nat, numPages: nat)
    requires ps > 0 && GrowsRunning(loans, reqs, lens, lasts, slots, free, ps) && i < |reqs| && reqs[i] in before
    requires Distinct(free)
    requires OpenedBefore(DecodeBatch(lens, lasts), i, ps) <= |free| && before[reqs[i]] == loans[reqs[i]]
    requires Partition(Elements(free[OpenedBefore(DecodeBatch(lens, lasts), i, ps)..]), v, before, ps, numPages)
    requires AllLaidOut(v, before, ps)
    ensures OpenedBefore(DecodeBatch(lens, lasts), i + 1, ps) <= |free|
    ensures var after := before[reqs[i] := Loan(loans[reqs[i]].path, loans[reqs[i]].row + slots[i])];
            && Partition(Elements(free[OpenedBefore(DecodeBatch(lens, lasts), i + 1, ps)..]), v, after, ps, numPages)
            && AllLaidOut(v, after, ps)
  {
    hide Partition, AllLaidOut, ExtendOne;
    var batch := DecodeBatch(lens, lasts);
    var left := free[OpenedBefore(batch, i, ps)..];
    assert RunsAt(loans, reqs[i], lens[i], lasts[i]);
    BeforeMonotone(batch, i + 1, |batch|, ps);
    assert slots[i] == SlotsOf(batch, i, free, ps);
    assert batch[i] == Extend(lens[i] - 1, lens[i], lasts[i]);
    GrowKeepsPartition(left, v, before, reqs[i], lasts[i], ps, numPages);
    assert left[PagesOpened(lens[i] - 1, lens[i], ps)..] == free[OpenedBefore(batch, i + 1, ps)..];
  }

  // ---------- Lengths that do not count the new token ----------

  /** `alloc_decode` for a row of `n` tokens takes the length `n + 1`.  Given `n`, as
      `prepare_for_decode` passes it, it hands out the same slot and takes the same pages exactly if
      `n % ps > 1` (or pages hold one token).  After a full page it hands out the start of the next
      page in memory and takes no page; one token into a page it opens another page. */
  lemma UncountedDecode(row: seq<int>, free: seq<int>, ps: nat)
    requires ps > 0 && LaidOut(row, ps) && |row| > 0 && |free| > 0
    ensures var n, last := |row|, row[|row| - 1];
            && PagesOpened(n - 1, n, ps) <= 1 && PagesOpened(n, n + 1, ps) <= 1
            && (SameDecode(n, last, free, ps) <==> ps == 1 || n % ps > 1)
            && (ps > 1 && n % ps == 0 ==>
                  ExtendOne(n - 1, n, last, free, ps) == [last + 1] && (last + 1) / ps == last / ps + 1
                  && PagesOpened(n - 1, n, ps) == 0)
            && (ps > 1 && n % ps == 1 ==>
                  ExtendOne(n - 1, n, last, free, ps)[0] % ps == 0 && ExtendOne(n, n + 1, last, free, ps)[0] % ps == 1)
  {
    var n, last := |row|, row[|row| - 1];
    OneTokenPage(n, ps);
    OneTokenPage(n + 1, ps);
    DivModUnique(free[0] * ps, ps, free[0], 0);
    if ps > 1 && n % ps == 0 {
      LastOfPage(n, last, ps);
    } else if ps > 1 {
      NextInPage(last, n, ps);
    }
  }

  /** The same slot and as many pages, whether or not the length counts the new token. */
  ghost predicate SameDecode(n: nat, last: int, free: seq<int>, ps: nat)
    requires ps > 0 && n > 0 && PagesOpened(n - 1, n, ps) <= |free| && PagesOpened(n, n + 1, ps) <= |free|
  {
    && ExtendOne(n - 1, n, last, free, ps) == ExtendOne(n, n + 1, last, free, ps)
    && PagesOpened(n - 1, n, ps) == PagesOpened(n, n + 1, ps)
  }

  lemma LastOfPage(n: nat, last: int, ps: nat)
    requires ps > 1 && n > 0 && n % ps == 0 && last % ps == (n - 1) % ps
    ensures (n - 1) % ps == ps - 1 && (last + 1) / ps == last / ps + 1
  {
    assert n == n / ps * ps;
    assert n - 1 == (n / ps - 1) * ps + (ps - 1);
    DivModUnique(n - 1, ps, n / ps - 1, ps - 1);
    assert last + 1 == (last / ps + 1) * ps;
    DivModUnique(last + 1, ps, last / ps + 1, 0);
  }

  /** Pages of four tokens, one page full: the slot handed out is on page 2, which stays free. */
  lemma UncountedSlotIsFree()
    ensures LaidOut([4, 5, 6, 7], 4) && ExtendOne(3, 4, 7, [3, 2], 4) == [2 * 4] && PagesOpened(3, 4, 4) == 0
    ensures ExtendOne(4, 5, 7, [3, 2], 4) == [3 * 4] && PagesOpened(4, 5, 4) == 1
  {
    var row := [4, 5, 6, 7];
    assert forall i: nat | i < 4 :: AlignLen(i, 4) == 0 && row[i] / 4 == 1;
  }
}
