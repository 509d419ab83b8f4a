/** The abstract state of the prefix cache: a prefix-closed map from page-aligned
    token strings to the KV slots that hold them.  The radix tree of
    miniinfer/kvcache/radix_cache.py is proved against these functions. */
module PrefixMap {
  import opened Pages

  type Token = int
  type View = map<seq<Token>, seq<int>>

  /** All page-aligned prefixes of `path` are stored, with the prefixes of `slots`. */
  ghost predicate Covers(v: View, path: seq<Token>, slots: seq<int>, ps: nat)
    requires ps > 0 && |path| == |slots|
  {
    forall k: nat {:trigger path[..k]} | k <= |path| && Aligned(k, ps) ::
      path[..k] in v && v[path[..k]] == slots[..k]
  }

  lemma CoversShorter(v: View, path: seq<Token>, slots: seq<int>, at: nat, ps: nat)
    requires ps > 0 && |path| == |slots| && at <= |path| && Covers(v, path, slots, ps)
    ensures Covers(v, path[..at], slots[..at], ps)
  {
    forall k: nat | k <= at && Aligned(k, ps)
      ensures path[..at][..k] in v && v[path[..at][..k]] == slots[..at][..k]
    {
      assert path[..at][..k] == path[..k] && slots[..at][..k] == slots[..k];
    }
  }

  /** Every stored string is page-aligned, carries one slot per token, and all its
      page-aligned prefixes are stored with the matching prefix of the slots. */
  ghost predicate WellFormed(v: View, ps: nat)
    requires ps > 0
  {
    && [] in v
    && (forall p | p in v :: Aligned(|p|, ps) && |v[p]| == |p|)
    && (forall p | p in v :: Covers(v, p, v[p], ps))
  }

  /** `m` is the length of the longest stored page-aligned prefix of `key`. */
  ghost predicate IsMatchLen(v: View, key: seq<Token>, ps: nat, m: nat)
    requires ps > 0
  {
    && m <= |key| && Aligned(m, ps) && key[..m] in v
    && forall j: nat | m < j <= |key| && Aligned(j, ps) :: key[..j] !in v
  }

  /** In a prefix-closed map the next page already decides: if it is missing, so is
      every longer prefix. */
  lemma MatchStopsAtFirstGap(v: View, key: seq<Token>, ps: nat, m: nat)
    requires ps > 0 && WellFormed(v, ps)
    requires m <= |key| && Aligned(m, ps) && key[..m] in v
    requires m + ps <= |key| ==> key[..m + ps] !in v
    ensures IsMatchLen(v, key, ps, m)
  {
    forall j: nat | m < j <= |key| && Aligned(j, ps)
      ensures key[..j] !in v
    {
      AlignedGap(m, j, ps);
      AlignedAdd(m, ps, ps);
      assert key[..j][..m + ps] == key[..m + ps];
    }
  }

  /** `v` with the page-aligned prefixes of `key` longer than `m` added, each with the
      matching prefix of `slots`. */
  ghost function AddPages(v: View, key: seq<Token>, slots: seq<int>, m: nat, ps: nat): View
    requires ps > 0 && |key| == |slots| && m <= |key|
    decreases |key| - m
  {
    if m + ps > |key| then v
    else AddPages(v[key[..m + ps] := slots[..m + ps]], key, slots, m + ps, ps)
  }

  /** What inserting `key` does when its longest stored prefix has length `m`: exactly the
      missing page-aligned prefixes appear, strings stored before keep their slots. */
  ghost predicate Inserted(v: View, v': View, key: seq<Token>, slots: seq<int>, ps: nat, m: nat)
    requires ps > 0 && |key| == |slots|
  {
    && (forall p | p in v :: p in v' && v'[p] == v[p])
    && (forall p | p in v' && p !in v ::
         m < |p| <= |key| && Aligned(|p|, ps) && p == key[..|p|] && v'[p] == slots[..|p|])
    && (forall k: nat {:trigger key[..k]} | m < k <= |key| && Aligned(k, ps) ::
         key[..k] in v' && v'[key[..k]] == slots[..k])
  }

  lemma {:induction false} AddPagesInserts(v: View, key: seq<Token>, slots: seq<int>, m: nat, ps: nat)
    requires ps > 0 && |key| == |slots| && m <= |key| && Aligned(m, ps)
    requires forall k: nat | m < k <= |key| && Aligned(k, ps) :: key[..k] !in v
    ensures Inserted(v, AddPages(v, key, slots, m, ps), key, slots, ps, m)
    decreases |key| - m
  {
    hide Inserted;
    if m + ps <= |key| {
      assert Aligned(ps, ps);
      AlignedAdd(m, ps, ps);
      var v1 := v[key[..m + ps] := slots[..m + ps]];
      forall k: nat | m + ps < k <= |key| && Aligned(k, ps)
        ensures key[..k] !in v1
      {
        assert |key[..k]| != |key[..m + ps]|;
      }
      AddPagesInserts(v1, key, slots, m + ps, ps);
      InsertedStep(v, AddPages(v, key, slots, m, ps), key, slots, m, ps);
    } else {
      NothingInserted(v, key, slots, m, ps);
    }
  }

  lemma NothingInserted(v: View, key: seq<Token>, slots: seq<int>, m: nat, ps: nat)
    requires ps > 0 && |key| == |slots| && m <= |key| < m + ps && Aligned(m, ps)
    ensures Inserted(v, v, key, slots, ps, m)
  {
    forall k: nat | m < k <= |key| && Aligned(k, ps)
      ensures m + ps <= k
    {
      AlignedGap(m, k, ps);
    }
  }

  /** One page more at the short end. */
  lemma InsertedStep(v: View, v': View, key: seq<Token>, slots: seq<int>, m: nat, ps: nat)
    requires ps > 0 && |key| == |slots| && m + ps <= |key| && Aligned(m, ps) && Aligned(m + ps, ps)
    requires key[..m + ps] !in v
    requires Inserted(v[key[..m + ps] := slots[..m + ps]], v', key, slots, ps, m + ps)
    ensures Inserted(v, v', key, slots, ps, m)
  {
    hide Aligned;
    var page := key[..m + ps];
    var v1 := v[page := slots[..m + ps]];
    assert page in v1 && v1[page] == slots[..m + ps] && |page| == m + ps;
    forall k: nat | m < k <= |key| && Aligned(k, ps)
      ensures key[..k] in v' && v'[key[..k]] == slots[..k]
    {
      AlignedGap(m, k, ps);
    }
  }

  /** Entries keep their slots, so what was covered stays covered. */
  lemma CoversKept(v: View, v': View, path: seq<Token>, slots: seq<int>, ps: nat)
    requires ps > 0 && |path| == |slots| && Covers(v, path, slots, ps)
    requires forall p | p in v :: p in v' && v'[p] == v[p]
    ensures Covers(v', path, slots, ps)
  {
  }

  lemma CoversInserted(v: View, v': View, key: seq<Token>, slots: seq<int>, m: nat, ps: nat)
    requires ps > 0 && |key| == |slots| && m <= |key|
    requires Covers(v, key[..m], slots[..m], ps) && Inserted(v, v', key, slots, ps, m)
    ensures Covers(v', key, slots, ps)
  {
    forall k: nat | k <= |key| && Aligned(k, ps)
      ensures key[..k] in v' && v'[key[..k]] == slots[..k]
    {
      if k <= m {
        assert key[..k] == key[..m][..k] && slots[..k] == slots[..m][..k];
      }
    }
  }
}
