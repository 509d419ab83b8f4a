/** Page-size and block-size arithmetic.  `Aligned` is the recursive form of "a multiple of the page
    size"; the lemmas tie it to floor division and remainder and keep division out of the other proofs. */
module Pages {

  function Min(a: int, b: int): int {
    if a <= b then a else b
  }

  /** `(n + b - 1) // b`. */
  function CeilDiv(n: nat, b: nat): nat
    requires b > 0
  {
    (n + b - 1) / b
  }

  /** `next_power_of_2(n)`, counting up from the power `p`. */
  function NextPow2(n: nat, p: nat): (r: nat)
    requires p > 0
    ensures r >= n && r >= p
    decreases n - p
  {
    if p >= n then p else NextPow2(n, 2 * p)
  }

  lemma MulMonotone(a: int, b: int, k: nat)
    requires a <= b
    ensures a * k <= b * k
  {
    assert b * k == a * k + (b - a) * k;
  }

  predicate Aligned(n: nat, ps: nat)
    requires ps > 0
  {
    n == 0 || (n >= ps && Aligned(n - ps, ps))
  }

  lemma {:induction false} AlignedAdd(a: nat, b: nat, ps: nat)
    requires ps > 0 && Aligned(a, ps) && Aligned(b, ps)
    ensures Aligned(a + b, ps)
    decreases b
  {
    if b > 0 {
      AlignedAdd(a, b - ps, ps);
    }
  }

  lemma {:induction false} AlignedSub(a: nat, b: nat, ps: nat)
    requires ps > 0 && Aligned(a, ps) && Aligned(b, ps) && b <= a
    ensures Aligned(a - b, ps)
    decreases b
  {
    if b > 0 {
      AlignedSub(a - ps, b - ps, ps);
    }
  }

  /** Two different multiples are at least a page apart. */
  lemma {:induction false} AlignedGap(a: nat, b: nat, ps: nat)
    requires ps > 0 && Aligned(a, ps) && Aligned(b, ps) && a < b
    ensures a + ps <= b
    decreases a
  {
    if a > 0 {
      AlignedGap(a - ps, b - ps, ps);
    }
  }

  lemma MulAtLeast(d: int, ps: nat)
    requires ps > 0
    ensures d >= 1 ==> d * ps >= ps
    ensures d <= -1 ==> d * ps <= 0 - ps
  {
    if d >= 1 {
      assert d * ps == (d - 1) * ps + ps;
    } else if d <= -1 {
      assert d * ps == (d + 1) * ps - ps;
    }
  }

  /** Quotient and remainder are determined by the division equation. */
  lemma DivModUnique(x: int, ps: nat, q: int, r: int)
    requires ps > 0 && x == q * ps + r && 0 <= r < ps
    ensures x / ps == q && x % ps == r
  {
    var q', r' := x / ps, x % ps;
    assert x == ps * q' + r';
    assert (q - q') * ps == r' - r;
    MulAtLeast(q - q', ps);
  }

  /** `Aligned` is the test `n % page_size == 0`. */
  lemma {:induction false} AlignedMod(n: nat, ps: nat)
    requires ps > 0
    ensures Aligned(n, ps) <==> n % ps == 0
    ensures Aligned(n, ps) ==> n == n / ps * ps
    decreases n
  {
    if n == 0 {
      DivModUnique(0, ps, 0, 0);
    } else if n < ps {
      DivModUnique(n, ps, 0, n);
    } else {
      AlignedMod(n - ps, ps);
      var q, r := (n - ps) / ps, (n - ps) % ps;
      assert n - ps == ps * q + r;
      assert (q + 1) * ps == q * ps + ps;
      DivModUnique(n, ps, q + 1, r);
    }
  }

  /** The largest multiple of the page size not above a length. */
  function AlignLen(n: nat, ps: nat): (r: nat)
    requires ps > 0
    ensures Aligned(r, ps) && r <= n < r + ps
  {
    if n < ps then 0 else AlignLen(n - ps, ps) + ps
  }

  /** `AlignLen` is `(length // page_size) * page_size`. */
  lemma AlignLenIsFloor(n: nat, ps: nat)
    requires ps > 0
    ensures AlignLen(n, ps) == n / ps * ps
  {
    var a := AlignLen(n, ps);
    AlignedMod(a, ps);
    assert n == a / ps * ps + (n - a);
    DivModUnique(n, ps, a / ps, n - a);
  }
}
