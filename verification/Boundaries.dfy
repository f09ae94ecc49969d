/**
 Boundaries of a rollout in the hash space.

 An entry of a weighted distribution starts where the weights before it, as a fraction of the total, point
 into the 2^32 hashes: at the ceiling of that fraction. What follows is where such a boundary lies, and how it
 moves when a weight before or after it is raised, in exact integers. Nothing here knows about entries: a
 boundary is given by the weight before it and the total weight.
 */
module Boundaries {
  const HASHES: nat := 0x1_0000_0000

  lemma {:induction false} BucketInRange(hash: nat, total: nat)
    requires hash < HASHES && 0 < total
    ensures hash * total / HASHES < total
  {
    assert hash * total < HASHES * total;
  }

  lemma {:induction false} ScaledFloor(x: nat, c: nat)
    ensures c <= x / HASHES <==> c * HASHES <= x
  {
  }

  /** The first hash at or past the fraction c/total: the ceiling of 2^32 * c / total. */
  function Start(c: nat, total: nat): nat
    requires 0 < total
  {
    (HASHES * c + total - 1) / total
  }

  lemma {:induction false} StartIff(c: nat, total: nat, hash: nat)
    requires 0 < total
    ensures Start(c, total) <= hash <==> c * HASHES <= hash * total
  {
    var n := HASHES * c + total - 1;
    var q := n / total;
    assert q * total <= n < q * total + total;
    if q <= hash {
      assert q * total <= hash * total;
      assert c * HASHES <= hash * total;
    } else {
      assert (hash + 1) * total <= q * total;
      assert hash * total < c * HASHES;
    }
  }

  lemma {:induction false} StartMonotone(c: nat, d: nat, total: nat)
    requires 0 < total && c <= d
    ensures Start(c, total) <= Start(d, total)
  {
    StartIff(d, total, Start(d, total));
    StartIff(c, total, Start(d, total));
  }

  lemma {:induction false} StartEnds(total: nat)
    requires 0 < total
    ensures Start(0, total) == 0 && Start(total, total) == HASHES
  {
    StartIff(0, total, 0);
    StartIff(total, total, HASHES);
    StartIff(total, total, HASHES - 1);
  }

  lemma {:induction false} CeilingBounds(c: nat, total: nat) returns (q: nat)
    requires 0 < total
    ensures q == Start(c, total) && HASHES * c <= q * total < HASHES * c + total
  {
    q := Start(c, total);
    var n := HASHES * c + total - 1;
    assert n == q * total + n % total;
  }

  lemma {:induction false} StartMovesDown(c: nat, total: nat, d: nat)
    requires 0 < total
    ensures Start(c, total + d) <= Start(c, total)
  {
    var h := Start(c, total);
    StartIff(c, total, h);
    Distribute(h, total, d);
    StartIff(c, total + d, h);
  }

  lemma {:induction false} Distribute(h: nat, a: nat, b: nat)
    ensures h * (a + b) == h * a + h * b
    ensures 0 <= h * b && (h <= HASHES ==> h * b <= HASHES * b)
  {
  }

  lemma {:induction false} StartMovesUp(c: nat, total: nat, d: nat)
    requires 0 < total && c <= total
    ensures Start(c, total) <= Start(c + d, total + d) <= HASHES
  {
    var h := Start(c + d, total + d);
    StartEnds(total + d);
    StartMonotone(c + d, total + d, total + d);
    StartIff(c + d, total + d, h);
    Distribute(h, total, d);
    StartIff(c, total, h);
  }

  /** Two different boundaries stand at different hashes, as there are more hashes than weight. */
  lemma {:induction false} StartStep(c: nat, e: nat, total: nat)
    requires 0 < total <= HASHES && c < e
    ensures Start(c, total) < Start(e, total)
  {
    var h := Start(e, total);
    StartIff(e, total, h);
    assert c * HASHES <= e * HASHES - HASHES;
    assert h > 0;
    assert (h - 1) * total == h * total - total;
    StartIff(c, total, h - 1);
  }

  lemma {:induction false} BoundaryDrops(c: nat, total: nat, d: nat)
    requires 0 < c && 0 < total && 0 < d && total + d <= 0x1_0000
    ensures Start(c, total + d) < Start(c, total)
  {
    var h := Start(c, total);
    StartIff(c, total, h);
    assert h * total >= c * HASHES;
    assert h > 0;
    Squeeze(h, total, d);
    assert (h - 1) * (total + d) == h * total + h * d - (total + d);
    StartIff(c, total + d, h - 1);
  }

  /** A hash at or past a positive boundary of a small distribution is at least total + d. */
  lemma {:induction false} Squeeze(h: nat, total: nat, d: nat)
    requires 0 < total && 0 < d && total + d <= 0x1_0000 && h * total >= HASHES
    ensures h * d >= total + d
  {
    assert h < 0x1_0000 ==> h * total <= h * 0x1_0000 < HASHES;
    assert h * d >= h;
  }

  lemma {:induction false} BoundaryClimbs(c: nat, total: nat, d: nat)
    requires c < total && 0 < d && total + d <= 0x1_0000
    ensures Start(c, total) < Start(c + d, total + d)
  {
    var h := CeilingBounds(c + d, total + d);
    StartEnds(total + d);
    StartMonotone(c + d, total + d, total + d);
    ClimbGap(c, total, d, h);
    StartIff(c, total, h - 1);
  }

  lemma {:induction false} ClimbGap(c: nat, total: nat, d: nat, h: nat)
    requires c < total && 0 < d && total + d <= 0x1_0000 && h <= HASHES
    requires HASHES * (c + d) <= h * (total + d) < HASHES * (c + d) + (total + d)
    ensures 0 < h && (h - 1) * total >= c * HASHES
  {
    var g := HASHES - h;
    Distribute(h, total, d);
    Difference(h, HASHES, total + d);
    Wide(g, total + d);
    AtLeast(g, d);
    Difference(h, HASHES, d);
    Difference(1, h, total);
  }

  lemma {:induction false} Wide(g: int, s: nat)
    requires s <= 0x1_0000 && g * s > HASHES - 0x1_0000
    ensures g >= 0x1_0000
  {
    assert g <= 0xFFFF ==> g * s <= 0xFFFF * s;
  }

  lemma {:induction false} AtLeast(g: nat, d: nat)
    requires 0 < d
    ensures g <= g * d
  {
  }

  lemma Difference(a: int, b: int, t: int)
    ensures (b - a) * t == b * t - a * t
  {
  }
}
