/** The grouped tile order of the fused mixture-of-experts GEMM: program ids walk the tile grid in
    groups of `G` rows, the last group possibly shorter. */
module TileSwizzle {
  import opened Pages

  datatype Tile = Tile(m: nat, n: nat)

  function GroupRows(numM: nat, G: nat, group: nat): (r: nat)
    requires G > 0 && group * G < numM
    ensures 0 < r <= G
  {
    if numM - group * G < G then numM - group * G else G
  }

  lemma Room(pid: nat, numM: nat, numN: nat, G: nat)
    requires G > 0 && pid < numM * numN
    ensures numN > 0 && G * numN > 0
    ensures pid / (G * numN) * G < numM
    ensures pid % (G * numN) < GroupRows(numM, G, pid / (G * numN)) * numN
  {
    Positive(numM, numN, pid);
    Positive2(G, numN);
    var group, r := pid / (G * numN), pid % (G * numN);
    assert pid == group * (G * numN) + r;
    assert group * (G * numN) == (group * G) * numN;
    SmallerFactor(group * G, numM, numN);
    assert (numM - group * G) * numN == numM * numN - (group * G) * numN;
  }

  lemma Positive(a: nat, b: nat, x: nat)
    requires x < a * b
    ensures a > 0 && b > 0
  {
  }

  lemma Positive2(a: nat, b: nat)
    requires a > 0 && b > 0
    ensures a * b > 0
  {
  }

  lemma SmallerFactor(a: nat, b: nat, k: nat)
    ensures a * k < b * k ==> a < b
  {
    if a >= b {
      assert a * k == b * k + (a - b) * k;
    }
  }

  /** The kernel's `pid_m` and `pid_n`. */
  function TileOf(pid: nat, numM: nat, numN: nat, G: nat): (t: Tile)
    requires G > 0 && pid < numM * numN
    ensures t.m < numM && t.n < numN
  {
    Room(pid, numM, numN, G);
    var group := pid / (G * numN);
    var r := pid % (G * numN);
    var size := GroupRows(numM, G, group);
    QuotientBelow(r, size, numN);
    Tile(group * G + r % size, r / size)
  }

  lemma QuotientBelow(r: nat, size: nat, k: nat)
    requires size > 0 && r < size * k
    ensures r / size < k && r / size >= 0 && 0 <= r % size < size
  {
    assert r == r / size * size + r % size;
    SmallerFactor(r / size, k, size);
  }

  /** The program that computes a tile. */
  function PidOf(t: Tile, numM: nat, numN: nat, G: nat): (pid: nat)
    requires G > 0 && t.m < numM && t.n < numN
    ensures pid < numM * numN
  {
    PidBounds(t, numM, numN, G);
    var group := t.m / G;
    group * G * numN + t.n * GroupRows(numM, G, group) + (t.m - group * G)
  }

  lemma PidBounds(t: Tile, numM: nat, numN: nat, G: nat)
    requires G > 0 && t.m < numM && t.n < numN
    ensures var group := t.m / G;
            && 0 <= group && group * G <= t.m && t.m - group * G < GroupRows(numM, G, group)
            && (var r := t.n * GroupRows(numM, G, group) + (t.m - group * G);
                0 <= r < GroupRows(numM, G, group) * numN && r < G * numN && 0 <= group * G * numN
                && group * G * numN + r < numM * numN)
  {
    var group := t.m / G;
    assert t.m == group * G + t.m % G;
    var size := GroupRows(numM, G, group);
    OneMoreRow(t.n, numN, size);
    assert size * numN <= G * numN by { MulMonotone(size, G, numN); }
    MulMonotone(group * G + size, numM, numN);
    assert (group * G + size) * numN == group * G * numN + size * numN;
    assert group * G * numN >= 0;
  }

  lemma OneMoreRow(n: nat, k: nat, size: nat)
    requires n < k
    ensures n * size + size <= size * k && 0 <= n * size
  {
    MulMonotone(n + 1, k, size);
    assert (n + 1) * size == n * size + size;
  }

  /** Every program computes a tile of its own ... */
  lemma PidRoundTrip(pid: nat, numM: nat, numN: nat, G: nat)
    requires G > 0 && pid < numM * numN
    ensures PidOf(TileOf(pid, numM, numN, G), numM, numN, G) == pid
  {
    hide GroupRows;
    Room(pid, numM, numN, G);
    var group, r := pid / (G * numN), pid % (G * numN);
    var size := GroupRows(numM, G, group);
    var t := TileOf(pid, numM, numN, G);
    DivModUnique(t.m, G, group, r % size);
    assert t.m / G == group && t.m - group * G == r % size && t.n == r / size;
    Reassemble(pid, group, G, numN, r, size);
  }

  lemma Reassemble(pid: nat, group: nat, G: nat, numN: nat, r: nat, size: nat)
    requires size > 0 && G * numN > 0 && group == pid / (G * numN) && r == pid % (G * numN)
    ensures pid == group * G * numN + r / size * size + r % size
  {
    assert r == r / size * size + r % size;
    assert pid == group * (G * numN) + r && group * (G * numN) == group * G * numN;
  }

  /** ... and every tile has a program. */
  lemma TileRoundTrip(t: Tile, numM: nat, numN: nat, G: nat)
    requires G > 0 && t.m < numM && t.n < numN
    ensures TileOf(PidOf(t, numM, numN, G), numM, numN, G) == t
  {
    PidBounds(t, numM, numN, G);
    var group := t.m / G;
    var size := GroupRows(numM, G, group);
    var r := t.n * size + (t.m - group * G);
    Positive2(G, numN);
    assert group * (G * numN) == group * G * numN;
    DivModUnique(group * G * numN + r, G * numN, group, r);
    DivModUnique(r, size, t.n, t.m - group * G);
  }
}
