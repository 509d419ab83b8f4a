/** `RequestPool` of miniinfer/kvcache/memory_pool.py and the kernel of
    miniinfer/kvcache/kv_cache_manager.py that fills its rows. */
module RequestTable {
  import opened Wrappers
  import opened Pages
  import opened Orders
  import opened PagedMemory

  class RequestPool {
    const maxRequests: nat
    const maxContextLen: nat
    var reqToToken: seq<seq<int>>
    var freeSlots: seq<nat>

    ghost predicate Valid()
      reads this
    {
      && |reqToToken| == maxRequests && (forall i | 0 <= i < maxRequests :: |reqToToken[i]| == maxContextLen)
      && Distinct(freeSlots) && forall s | s in freeSlots :: s < maxRequests
    }

    constructor (maxRequests: nat, maxContextLen: nat)
      ensures Valid() && this.maxRequests == maxRequests && this.maxContextLen == maxContextLen
      ensures |freeSlots| == maxRequests && forall i: nat | i < maxRequests :: freeSlots[i] == i
    {
      this.maxRequests, this.maxContextLen := maxRequests, maxContextLen;
      reqToToken := seq(maxRequests, _ => seq(maxContextLen, _ => 0));
      freeSlots := seq(maxRequests, i => i);
    }

    /** `alloc`: the first `n` free rows, or nothing when fewer are free. */
    method Alloc(n: nat) returns (r: Option<seq<nat>>)
      requires Valid()
      modifies this`freeSlots
      ensures Valid() && (r.Some? <==> n <= |old(freeSlots)|)
      ensures r.None? ==> freeSlots == old(freeSlots)
      ensures r.Some? ==> r.value == old(freeSlots)[..n] && freeSlots == old(freeSlots)[n..]
    {
      if n > |freeSlots| {
        return None;
      }
      r := Some(freeSlots[..n]);
      assert forall s | s in freeSlots[n..] :: s in freeSlots;
      freeSlots := freeSlots[n..];
    }

    method Free(index: nat)
      requires Valid() && index < maxRequests && index !in freeSlots
      modifies this`freeSlots
      ensures Valid() && freeSlots == old(freeSlots) + [index]
    {
      freeSlots := freeSlots + [index];
    }

    method Read(index: nat, n: nat) returns (row: seq<int>)
      requires Valid() && index < maxRequests && n <= maxContextLen
      ensures row == reqToToken[index][..n]
    {
      row := reqToToken[index][..n];
    }

    /** A masked vector store into one row. */
    method Write(index: nat, at: nat, slots: seq<int>)
      requires Valid() && index < maxRequests && at + |slots| <= maxContextLen
      modifies this`reqToToken
      ensures Valid() && OnlyRow(old(reqToToken), index)
      ensures reqToToken[index] == Overlay(old(reqToToken)[index], at, slots)
    {
      reqToToken := reqToToken[index := Overlay(reqToToken[index], at, slots)];
    }

    /** No other row of the table changed. */
    ghost predicate OnlyRow(before: seq<seq<int>>, index: nat)
      reads this`reqToToken
    {
      |reqToToken| == |before| && forall i | 0 <= i < |before| && i != index :: reqToToken[i] == before[i]
    }

    /** The copy loop of `write_req_to_token_pool_triton`: blocks of 512 lanes, the last one
        masked. */
    method CopyBlocks(index: nat, at: nat, src: seq<int>)
      requires Valid() && index < maxRequests && at + |src| <= maxContextLen
      modifies this`reqToToken
      ensures Valid() && OnlyRow(old(reqToToken), index)
      ensures reqToToken[index] == Overlay(old(reqToToken)[index], at, src)
    {
      var numLoop := (|src| + BLOCK_SIZE - 1) / BLOCK_SIZE;
      var row := reqToToken[index];
      assert Overlay(row, at, src[..0]) == row;
      for i := 0 to numLoop
        invariant Valid() && OnlyRow(old(reqToToken), index) && i * BLOCK_SIZE < |src| + BLOCK_SIZE
        invariant reqToToken[index] == Overlay(row, at, src[..Min(i * BLOCK_SIZE, |src|)])
      {
        var lo := i * BLOCK_SIZE;
        var hi := Min(lo + BLOCK_SIZE, |src|);
        assert |reqToToken[index]| == maxContextLen;
        Write(index, at + lo, src[lo..hi]);
        OverlayTwice(row, at, src, lo, hi);
      }
      assert src[..|src|] == src;
    }

    /** One program of the kernel: the cached prefix, then this request's segment of the flat
        output, found by summing the lengths of the programs before it. */
    method WriteProgram(pid: nat, rows: seq<nat>, prefixes: seq<seq<int>>, batch: seq<Extend>, out: seq<int>)
      requires Valid() && FitsTable(rows, prefixes, batch, out) && pid < |batch|
      modifies this`reqToToken
      ensures Valid() && OnlyRow(old(reqToToken), rows[pid])
      ensures RowWritten(old(reqToToken), pid, rows, prefixes, batch, out)
    {
      var e := batch[pid];
      CopyBlocks(rows[pid], 0, prefixes[pid]);
      var cumsumStart := 0;
      for i := 0 to pid
        invariant cumsumStart == TokensBefore(batch, i)
      {
        cumsumStart := cumsumStart + (batch[i].len - batch[i].pre);
      }
      BeforeMonotone(batch, pid + 1, |batch|, 1);
      CopyBlocks(rows[pid], e.pre, out[cumsumStart..cumsumStart + (e.len - e.pre)]);
    }

    predicate FitsTable(rows: seq<nat>, prefixes: seq<seq<int>>, batch: seq<Extend>, out: seq<int>) {
      && |rows| == |prefixes| == |batch| && Growing(batch) && TokensBefore(batch, |batch|) <= |out|
      && (forall i | 0 <= i < |batch| ::
           rows[i] < maxRequests && |prefixes[i]| == batch[i].pre && batch[i].len <= maxContextLen)
    }

    /** The row of program `pid` holds its prefix and its segment; the rest is as it was. */
    ghost predicate RowWritten(before: seq<seq<int>>, pid: nat, rows: seq<nat>, prefixes: seq<seq<int>>,
        batch: seq<Extend>, out: seq<int>)
      requires FitsTable(rows, prefixes, batch, out) && pid < |batch|
      reads this`reqToToken
    {
      && rows[pid] < |before| && rows[pid] < |reqToToken| && batch[pid].len <= |before[rows[pid]]|
      && reqToToken[rows[pid]] == prefixes[pid] + Segment(batch, pid, out) + before[rows[pid]][batch[pid].len..]
    }

    /** `write_cache_indices`: the programs write different rows, so their order does not
        matter. */
    method WriteCacheIndices(order: seq<nat>, rows: seq<nat>, prefixes: seq<seq<int>>, batch: seq<Extend>,
        out: seq<int>)
      requires Valid() && FitsTable(rows, prefixes, batch, out) && Distinct(rows) && IsOrder(order, |batch|)
      modifies this`reqToToken
      ensures Valid()
      ensures forall pid: nat | pid < |batch| :: RowWritten(old(reqToToken), pid, rows, prefixes, batch, out)
      ensures forall i | 0 <= i < maxRequests && i !in rows :: reqToToken[i] == old(reqToToken)[i]
    {
      for n := 0 to |order|
        invariant Valid()
        invariant forall k | 0 <= k < n :: RowWritten(old(reqToToken), order[k], rows, prefixes, batch, out)
        invariant forall i | 0 <= i < maxRequests && (forall k | 0 <= k < n :: rows[order[k]] != i) ::
            reqToToken[i] == old(reqToToken)[i]
      {
        assert forall k | 0 <= k < n :: rows[order[k]] != rows[order[n]];
        WriteProgram(order[n], rows, prefixes, batch, out);
      }
      forall pid: nat | pid < |batch|
        ensures RowWritten(old(reqToToken), pid, rows, prefixes, batch, out)
      {
        OrderCovers(order, |batch|, pid);
      }
    }
  }

  /** Request `i`'s segment of the flat output of an extend. */
  function Segment(batch: seq<Extend>, i: nat, out: seq<int>): (s: seq<int>)
    requires i < |batch| && Growing(batch) && TokensBefore(batch, |batch|) <= |out|
    ensures TokensBefore(batch, i) <= TokensBefore(batch, i + 1) <= |out|
    ensures |s| == batch[i].len - batch[i].pre
  {
    BeforeMonotone(batch, i + 1, |batch|, 1);
    out[TokensBefore(batch, i)..TokensBefore(batch, i + 1)]
  }

  function Segments(batch: seq<Extend>, out: seq<int>, k: nat): (s: seq<seq<int>>)
    requires Growing(batch) && TokensBefore(batch, |batch|) <= |out| && k <= |batch|
    ensures |s| == k && forall i: nat | i < k :: s[i] == Segment(batch, i, out)
  {
    if k == 0 then [] else Segments(batch, out, k - 1) + [Segment(batch, k - 1, out)]
  }

  const BLOCK_SIZE := 512

  /** `row` with `slots` written at `at`. */
  function Overlay(row: seq<int>, at: nat, slots: seq<int>): (r: seq<int>)
    requires at + |slots| <= |row|
    ensures |r| == |row|
  {
    row[..at] + slots + row[at + |slots|..]
  }

  lemma OverlayTwice(row: seq<int>, at: nat, src: seq<int>, lo: nat, hi: nat)
    requires lo <= hi <= |src| && at + |src| <= |row|
    ensures Overlay(Overlay(row, at, src[..lo]), at + lo, src[lo..hi]) == Overlay(row, at, src[..hi])
  {
    assert src[..hi] == src[..lo] + src[lo..hi];
  }
}
