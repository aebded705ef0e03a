/**
 * The partition arithmetic: bucket / (size / n) picks a worker, bucket / (size / roots) picks a
 * root. Exactly when these indices are in range, and exactly when a root has a single worker.
 */
module Partition {

  lemma {:induction false} MulLe(a: nat, b: nat, r: nat)
    requires a <= b
    ensures a * r <= b * r
  {
    if a < b {
      MulLe(a, b - 1, r);
      assert b * r == (b - 1) * r + r;
    }
  }

  /** x / r is the number of whole multiples of r at or below x. */
  lemma DivIs(x: nat, r: nat, q: nat)
    requires 0 < r && q * r <= x < q * r + r
    ensures x / r == q
  {
    var d := x / r;
    assert x == d * r + x % r;
    if d < q {
      MulLe(d + 1, q, r);
    } else if q < d {
      MulLe(q + 1, d, r);
    }
  }

  lemma DivBounds(x: nat, r: nat)
    requires 0 < r
    ensures x / r * r <= x < x / r * r + r
  {
  }

  lemma ShareIsPositive(size: nat, n: nat)
    requires 0 < n <= size
    ensures 0 < size / n && size == n * (size / n) + size % n
  {
  }

  /** An exact division keeps every owner index in range. */
  lemma OwnerInRange(n: nat, per: nat, b: nat)
    requires 0 < per && b < n * per
    ensures b / per < n
  {
    DivBounds(b, per);
    if n <= b / per {
      MulLe(n, b / per, per);
    }
  }

  /** A remainder puts the last bucket out of range. */
  lemma LastOutOfRange(n: nat, per: nat, size: nat)
    requires 0 < per && n * per < size
    ensures n <= (size - 1) / per
  {
    var q := (size - 1) / per;
    DivBounds(size - 1, per);
    if q < n {
      MulLe(q + 1, n, per);
    }
  }

  /** Dividing size buckets among n owners, every owner index is in range iff n divides size. */
  lemma OwnerInRangeIff(size: nat, n: nat)
    requires 0 < n <= size
    ensures 0 < size / n
    ensures (forall b: nat :: b < size ==> b / (size / n) < n) <==> size % n == 0
  {
    ShareIsPositive(size, n);
    if size % n == 0 {
      forall b: nat | b < size ensures b / (size / n) < n {
        OwnerInRange(n, size / n, b);
      }
    } else {
      LastOutOfRange(n, size / n, size);
    }
  }

  /** The owner of a bucket when the division is exact: each has one stretch of buckets, all equally long. */
  function Owner(size: nat, n: nat, b: nat): (w: nat)
    requires 0 < n <= size && size % n == 0 && b < size
    ensures w < n && w * (size / n) <= b < (w + 1) * (size / n)
  {
    ShareIsPositive(size, n);
    DivBounds(b, size / n);
    OwnerInRange(n, size / n, b);
    b / (size / n)
  }

  /** Whether all buckets of each root group go to the same worker. */
  ghost predicate GroupsStayTogether(size: nat, ratio: nat, per: nat)
    requires 0 < ratio && 0 < per
  {
    forall b: nat, c: nat :: b < size && c < size && b / ratio == c / ratio ==> b / per == c / per
  }

  /** If the group size divides the share of a worker, a group never straddles two workers. */
  lemma AlignedGroup(ratio: nat, per: nat, b: nat, c: nat)
    requires 0 < ratio && 0 < per && per % ratio == 0 && b / ratio == c / ratio
    ensures b / per == c / per
  {
    var k := per / ratio;
    assert per == k * ratio;
    DivDiv(b, ratio, k);
    DivDiv(c, ratio, k);
  }

  /** Dividing twice is dividing by the product. */
  lemma DivDiv(x: nat, r: nat, k: nat)
    requires 0 < r && 0 < k
    ensures 0 < k * r && x / (k * r) == x / r / k
  {
    var q, d := x / r, x / r / k;
    DivBounds(x, r);
    DivBounds(q, k);
    assert 0 < k * r by { MulLe(1, k, r); }
    assert d * (k * r) == (d * k) * r;
    MulLe(d * k, q, r);
    MulLe(q + 1, d * k + k, r);
    assert (q + 1) * r == q * r + r;
    assert (d * k + k) * r == (d * k) * r + k * r;
    DivIs(x, k * r, d);
  }

  /** Otherwise the group of bucket per also holds bucket per - 1, which has another worker. */
  lemma StraddlingGroup(size: nat, ratio: nat, per: nat)
    requires 0 < ratio && 0 < per && 0 < size && size % ratio == 0 && size % per == 0 && per % ratio != 0
    ensures per < size && (per - 1) / ratio == per / ratio && (per - 1) / per == 0 && per / per == 1
  {
    assert per < size by {
      if size < per {
        DivIs(size, per, 0);
      }
    }
    DivIs(per - 1, per, 0);
    DivIs(per, per, 1);
    DivBounds(per, ratio);
    assert per == per / ratio * ratio + per % ratio;
    DivIs(per - 1, ratio, per / ratio);
  }

  /**
   * With both divisions exact, no root is shared by two workers if and only if the group size
   * divides the share of a worker.
   */
  lemma GroupsStayTogetherIff(size: nat, ratio: nat, per: nat)
    requires 0 < ratio && 0 < per && 0 < size && size % ratio == 0 && size % per == 0
    ensures GroupsStayTogether(size, ratio, per) <==> per % ratio == 0
  {
    if per % ratio == 0 {
      forall b: nat, c: nat | b < size && c < size && b / ratio == c / ratio ensures b / per == c / per {
        AlignedGroup(ratio, per, b, c);
      }
    } else {
      StraddlingGroup(size, ratio, per);
    }
  }
}
