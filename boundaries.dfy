/**
 * Partition boundaries: a uniform split of the 64-bit key space into
 * half-open ranges [b[i], b[i + 1]), the last one open-ended upward.
 */
module Boundaries {
  import opened Records

  // ---------------------------------------------------------------------------
  // Division facts used by the uniform split
  // ---------------------------------------------------------------------------

  lemma DivLess(x: nat, p: nat, q: nat)
    requires p > 0 && x < p * q
    ensures x / p < q
  {
  }

  lemma MulCancelLess(x: int, y: int, p: nat)
    requires p > 0 && x * p < y * p
    ensures x < y
  {
  }

  lemma DivMonotone(x: nat, y: nat, p: nat)
    requires p > 0 && x <= y
    ensures x / p <= y / p
  {
    assert (x / p) * p <= x <= y < (y / p + 1) * p;
    MulCancelLess(x / p, y / p + 1, p);
  }

  lemma DivUnique(a: nat, p: nat, q: nat, r: nat)
    requires p > 0 && r < p && a == q * p + r
    ensures a / p == q
  {
    assert (a / p) * p <= a < (q + 1) * p;
    MulCancelLess(a / p, q + 1, p);
    assert q * p <= a < (a / p + 1) * p;
    MulCancelLess(q, a / p + 1, p);
  }

  lemma MulAddLeft(x: int, y: int, p: int)
    ensures (x + y) * p == x * p + y * p
  {
  }

  lemma DivMod(x: nat, p: nat)
    requires p > 0
    ensures x == (x / p) * p + x % p && 0 <= x % p < p
  {
  }

  /** When the remainders of x and n sum below p, the quotients simply add. */
  lemma DivSumNoCarry(x: nat, n: nat, p: nat)
    requires p > 0 && x % p + n % p < p
    ensures (x + n) / p == x / p + n / p
  {
    DivMod(x, p);
    DivMod(n, p);
    MulAddLeft(x / p, n / p, p);
    DivUnique(x + n, p, x / p + n / p, x % p + n % p);
  }

  /** When the remainders of x and n reach p, the sum carries one more into the quotient. */
  lemma DivSumCarry(x: nat, n: nat, p: nat)
    requires p > 0 && x % p + n % p >= p
    ensures (x + n) / p == x / p + n / p + 1
  {
    DivMod(x, p);
    DivMod(n, p);
    MulAddLeft(x / p, n / p, p);
    MulAddLeft(x / p + n / p, 1, p);
    DivUnique(x + n, p, x / p + n / p + 1, x % p + n % p - p);
  }

  /** Adding n moves the quotient by n / p or one more. */
  lemma DivStep(x: nat, n: nat, p: nat)
    requires p > 0
    ensures n / p <= (x + n) / p - x / p <= n / p + 1
  {
    if x % p + n % p < p {
      DivSumNoCarry(x, n, p);
    } else {
      DivSumCarry(x, n, p);
    }
  }

  // ---------------------------------------------------------------------------
  // Boundary sets
  // ---------------------------------------------------------------------------

  /** A usable boundary set: non-empty, starts at key 0, non-decreasing. */
  ghost predicate ValidBoundaries(b: seq<Key>)
  {
    && |b| > 0
    && b[0] == 0
    && forall i, j :: 0 <= i <= j < |b| ==> b[i] <= b[j]
  }

  /** The exclusive upper end of range i: the next boundary, or 2^64 for the last range. */
  function UpperEnd(b: seq<Key>, i: nat): nat
    requires i < |b|
  {
    if i + 1 < |b| then b[i + 1] else KEY_SPACE
  }

  /** Key k lies in the half-open range of partition i. */
  ghost predicate InRange(b: seq<Key>, i: nat, k: Key)
    requires i < |b|
  {
    b[i] <= k < UpperEnd(b, i)
  }

  /** The i-th of p uniform boundaries: floor(i * 2^64 / p). */
  function BoundaryAt(i: nat, p: nat): (k: Key)
    requires i < p
    ensures i == 0 ==> k == 0
  {
    MulMonotone(i + 1, p, KEY_SPACE);
    DivLess(i * KEY_SPACE, p, KEY_SPACE);
    i * KEY_SPACE / p
  }

  /** GetBoundaries: num_partitions uniform boundaries, the first one 0. */
  function GetBoundaries(numPartitions: nat): (b: seq<Key>)
    ensures |b| == numPartitions
    ensures numPartitions > 0 ==> b[0] == 0
  {
    seq(numPartitions, i requires 0 <= i < numPartitions => BoundaryAt(i, numPartitions))
  }

  /** For at least one partition, the uniform boundaries form a valid boundary set. */
  lemma GetBoundariesValid(numPartitions: nat)
    requires numPartitions > 0
    ensures ValidBoundaries(GetBoundaries(numPartitions))
  {
    var b := GetBoundaries(numPartitions);
    forall i, j | 0 <= i <= j < |b|
      ensures b[i] <= b[j]
    {
      MulMonotone(i, j, KEY_SPACE);
      DivMonotone(i * KEY_SPACE, j * KEY_SPACE, numPartitions);
    }
  }

  /** Every range of the uniform split is floor(2^64 / P) or one more keys wide. */
  lemma GetBoundariesSpacing(numPartitions: nat, i: nat)
    requires i < numPartitions
    ensures var b := GetBoundaries(numPartitions);
      KEY_SPACE / numPartitions <= UpperEnd(b, i) - b[i] <= KEY_SPACE / numPartitions + 1
  {
    var b := GetBoundaries(numPartitions);
    DivStep(i * KEY_SPACE, KEY_SPACE, numPartitions);
    assert i * KEY_SPACE + KEY_SPACE == (i + 1) * KEY_SPACE;
    if i + 1 == numPartitions {
      DivUnique((i + 1) * KEY_SPACE, numPartitions, KEY_SPACE, 0);
    }
  }

  /** The partition whose range holds key k: the last boundary not above k. */
  function Owner(b: seq<Key>, k: Key): (i: nat)
    requires ValidBoundaries(b)
    ensures i < |b| && InRange(b, i, k)
    decreases |b|
  {
    if |b| == 1 || b[|b| - 1] <= k then |b| - 1
    else Owner(b[..|b| - 1], k)
  }

  /** The ranges of a valid boundary set are disjoint: a key lies in exactly one of them. */
  lemma OwnerUnique(b: seq<Key>, k: Key, i: nat)
    requires ValidBoundaries(b) && i < |b|
    ensures InRange(b, i, k) <==> i == Owner(b, k)
  {
    var o := Owner(b, k);
    if InRange(b, i, k) {
      assert forall j, j' :: 0 <= j < j' < |b| && InRange(b, j, k) ==> k < b[j'];
    }
  }
}
