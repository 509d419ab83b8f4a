/** Counting independent draws.  A sample is a sequence of draws, one per coordinate; a box is the
    set of samples whose coordinates lie in given windows. */
module Counting {

  type Sample<T> = seq<T>

  ghost function Prepend<T>(x: T, samples: set<Sample<T>>): set<Sample<T>> {
    set s | s in samples :: [x] + s
  }

  ghost function PrependAll<T>(xs: set<T>, samples: set<Sample<T>>): set<Sample<T>> {
    set x, s | x in xs && s in samples :: [x] + s
  }

  ghost function Box<T>(windows: seq<set<T>>): set<Sample<T>> {
    if windows == [] then {[]} else PrependAll(windows[0], Box(windows[1..]))
  }

  ghost function Product<T>(windows: seq<set<T>>): nat {
    if windows == [] then 1 else |windows[0]| * Product(windows[1..])
  }

  lemma {:induction false} BoxMember<T>(windows: seq<set<T>>, s: Sample<T>)
    ensures s in Box(windows) <==> |s| == |windows| && forall i | 0 <= i < |s| :: s[i] in windows[i]
  {
    if windows != [] {
      if s in Box(windows) {
        var x, rest :| x in windows[0] && rest in Box(windows[1..]) && s == [x] + rest;
        BoxMember(windows[1..], rest);
        assert forall i | 0 < i < |s| :: s[i] == rest[i - 1] && windows[i] == windows[1..][i - 1];
      }
      if |s| == |windows| && forall i | 0 <= i < |s| :: s[i] in windows[i] {
        BoxMember(windows[1..], s[1..]);
        assert forall i | 0 <= i < |s[1..]| :: s[1..][i] == s[i + 1] && windows[1..][i] == windows[i + 1];
        assert s[0] in windows[0] && s[1..] in Box(windows[1..]) && s == [s[0]] + s[1..];
      }
    }
  }

  lemma {:induction false} PrependCard<T>(x: T, samples: set<Sample<T>>)
    ensures |Prepend(x, samples)| == |samples|
    decreases samples
  {
    if samples != {} {
      var s :| s in samples;
      PrependCard(x, samples - {s});
      assert Prepend(x, samples) == Prepend(x, samples - {s}) + {[x] + s};
      forall r | r in samples - {s}
        ensures [x] + r != [x] + s
      {
        assert ([x] + r)[1..] == r && ([x] + s)[1..] == s;
      }
    }
  }

  lemma {:induction false} PrependAllCard<T>(xs: set<T>, samples: set<Sample<T>>)
    ensures |PrependAll(xs, samples)| == |xs| * |samples|
    decreases xs
  {
    hide Prepend, PrependAll;
    if x :| x in xs {
      PrependAllCard(xs - {x}, samples);
      PrependCard(x, samples);
      PrependSplit(xs, x, samples);
      OneMoreTimes(|xs|, |samples|);
      assert |xs - {x}| == |xs| - 1;
    } else {
      PrependNone(xs, samples);
    }
  }

  lemma PrependNone<T>(xs: set<T>, samples: set<Sample<T>>)
    requires forall x :: x !in xs
    ensures xs == {} && PrependAll(xs, samples) == {}
  {
  }

  lemma OneMoreTimes(n: nat, k: nat)
    requires n > 0
    ensures (n - 1) * k + k == n * k
  {
  }

  lemma PrependSplit<T>(xs: set<T>, x: T, samples: set<Sample<T>>)
    requires x in xs
    ensures PrependAll(xs, samples) == Prepend(x, samples) + PrependAll(xs - {x}, samples)
    ensures Prepend(x, samples) !! PrependAll(xs - {x}, samples)
  {
    assert forall s | s in Prepend(x, samples) :: s[0] == x;
    assert forall s | s in PrependAll(xs - {x}, samples) :: s[0] != x;
    forall s | s in PrependAll(xs, samples)
      ensures s in Prepend(x, samples) + PrependAll(xs - {x}, samples)
    {
      var y, r :| y in xs && r in samples && s == [y] + r;
      if y != x {
        assert y in xs - {x};
      }
    }
  }

  lemma {:induction false} BoxCard<T>(windows: seq<set<T>>)
    ensures |Box(windows)| == Product(windows)
  {
    if windows != [] {
      BoxCard(windows[1..]);
      PrependAllCard(windows[0], Box(windows[1..]));
    }
  }

  /** Narrowing one window scales the count by the ratio of the window sizes. */
  lemma {:induction false} ProductUpdate<T>(windows: seq<set<T>>, i: nat, w: set<T>)
    requires i < |windows|
    ensures Product(windows[i := w]) * |windows[i]| == Product(windows) * |w|
  {
    if i == 0 {
      assert windows[0 := w][1..] == windows[1..];
      Swap(|w|, Product(windows[1..]), |windows[0]|);
    } else {
      ProductUpdate(windows[1..], i - 1, w);
      assert windows[i := w][1..] == windows[1..][i - 1 := w];
      Scale(|windows[0]|, Product(windows[1..][i - 1 := w]), |windows[i]|, Product(windows[1..]), |w|);
    }
  }

  lemma Swap(a: nat, b: nat, c: nat)
    ensures (a * b) * c == (c * b) * a
  {
    assert (a * b) * c == a * (b * c) == a * (c * b) == (c * b) * a;
  }

  lemma Scale(k: nat, a: nat, b: nat, c: nat, d: nat)
    requires a * b == c * d
    ensures (k * a) * b == (k * c) * d
  {
    assert (k * a) * b == k * (a * b) == k * (c * d) == (k * c) * d;
  }

  /** The numbers from `lo` to `hi` exclusive. */
  function Interval(lo: nat, hi: nat): (r: set<nat>)
    requires lo <= hi
    ensures |r| == hi - lo && forall x: nat :: x in r <==> lo <= x < hi
    decreases hi - lo
  {
    if lo == hi then {} else Interval(lo, hi - 1) + {hi - 1}
  }
}
