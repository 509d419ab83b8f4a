/** Orders in which the programs of a kernel launch may run: permutations of `0..n`. */
module Orders {

  predicate Distinct<T(==)>(s: seq<T>) {
    forall i, j | 0 <= i < j < |s| :: s[i] != s[j]
  }

  predicate IsOrder(order: seq<nat>, n: nat) {
    |order| == n && Distinct(order) && forall i | 0 <= i < n :: order[i] < n
  }

  ghost function Range(n: nat): (r: set<nat>)
    ensures |r| == n && forall x: nat :: x in r <==> x < n
  {
    if n == 0 then {} else Range(n - 1) + {n - 1}
  }

  ghost function Elements<T>(s: seq<T>): set<T> {
    set x | x in s
  }

  lemma {:induction false} DistinctCard<T>(s: seq<T>)
    requires Distinct(s)
    ensures |Elements(s)| == |s|
  {
    if s != [] {
      var n := |s| - 1;
      DistinctCard(s[..n]);
      assert s == s[..n] + [s[n]];
      assert Elements(s) == Elements(s[..n]) + {s[n]};
    } else {
      assert Elements(s) == {};
    }
  }

  lemma {:induction false} SubsetCard<T>(a: set<T>, b: set<T>)
    requires a <= b
    ensures |a| <= |b|
    ensures |a| == |b| ==> a == b
    decreases a
  {
    if a == {} {
      assert |b| == 0 ==> b == {};
    } else {
      var x :| x in a;
      SubsetCard(a - {x}, b - {x});
    }
  }

  /** Distinct ids below `n`, as many as `n`, leave none out. */
  lemma OrderCovers(order: seq<nat>, n: nat, id: nat)
    requires IsOrder(order, n) && id < n
    ensures id in order
  {
    DistinctCard(order);
    assert forall x | x in Elements(order) :: x in Range(n);
    SubsetCard(Elements(order), Range(n));
    assert id in Elements(order);
  }
}
