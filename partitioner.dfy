/**
 * Local sort and partition: sort a record buffer in place by the header
 * comparator, then cut it into one contiguous {offset, size} partition per
 * boundary with a single forward scan.
 */
module Partitioner {
  import opened Records
  import opened Boundaries

  /** A contiguous sub-range [offset, offset + size) of a record buffer. */
  datatype Partition = Partition(offset: nat, size: nat)

  /** operator==: partitions compare field by field. */
  function SamePartition(a: Partition, b: Partition): (eq: bool)
    ensures eq <==> a == b
  {
    a.offset == b.offset && a.size == b.size
  }

  /** Consecutive partitions are laid out back to back. */
  ghost predicate BackToBack(parts: seq<Partition>)
  {
    forall k :: 0 <= k < |parts| - 1 ==> parts[k].offset + parts[k].size == parts[k + 1].offset
  }

  /** The partitions tile [0, n): they start at 0, are back to back, and the last ends at n. */
  ghost predicate Tiles(parts: seq<Partition>, n: nat)
  {
    && |parts| > 0
    && parts[0].offset == 0
    && BackToBack(parts)
    && parts[|parts| - 1].offset + parts[|parts| - 1].size == n
  }

  function SumSizes(parts: seq<Partition>): nat
  {
    if parts == [] then 0 else parts[0].size + SumSizes(parts[1..])
  }

  /** Back-to-back partitions cover exactly the span from the first offset to the last end. */
  lemma {:induction false} SumSizesSpan(parts: seq<Partition>)
    requires |parts| > 0 && BackToBack(parts)
    ensures parts[0].offset + SumSizes(parts) == parts[|parts| - 1].offset + parts[|parts| - 1].size
  {
    if |parts| > 1 {
      SumSizesSpan(parts[1..]);
    }
  }

  /**
   * A tiling of [0, n): the sizes sum to n, every partition lies inside
   * [0, n), and an empty partition shares its offset with the next one.
   */
  lemma TilesLayout(parts: seq<Partition>, n: nat)
    requires Tiles(parts, n)
    ensures SumSizes(parts) == n
    ensures forall k :: 0 <= k < |parts| ==> parts[k].offset + parts[k].size <= n
    ensures forall k :: 0 <= k < |parts| - 1 && parts[k].size == 0 ==> parts[k].offset == parts[k + 1].offset
  {
    SumSizesSpan(parts);
    forall k | 0 <= k < |parts|
      ensures parts[k].offset + parts[k].size <= n
    {
      var suffix := parts[k..];
      assert BackToBack(suffix);
      SumSizesSpan(suffix);
    }
  }

  // ---------------------------------------------------------------------------
  // In-place sort
  // ---------------------------------------------------------------------------

  method SwapAdjacent(a: array<Record>, j: nat)
    requires 0 < j < a.Length
    modifies a
    ensures a[..] == old(a[..])[j - 1 := old(a[j])][j := old(a[j - 1])]
    ensures multiset(a[..]) == old(multiset(a[..]))
  {
    a[j - 1], a[j] := a[j], a[j - 1];
  }

  /**
   * Non-decreasing ranks on the prefix s[..hi]. On the whole sequence this
   * is Sorted, because HeaderLess is rank order (HeaderLessIsRankLess). The
   * sort reasons on ranks, which are integers, so ordering steps are
   * arithmetic rather than byte-string comparisons; RanksSortedIsSorted
   * converts the result back to Sorted.
   */
  ghost predicate RanksSorted(s: seq<Record>, hi: int)
  {
    forall p, q :: 0 <= p < q < hi && q < |s| ==> Rank(s[p]) <= Rank(s[q])
  }

  /**
   * Sinking s[j] into s[..i + 1]: apart from position j the prefix is
   * ordered, and s[j] is not above anything after it.
   */
  ghost predicate Sinking(s: seq<Record>, i: nat, j: nat)
  {
    && j <= i < |s|
    && (forall p, q :: 0 <= p < q <= i && p != j && q != j ==> Rank(s[p]) <= Rank(s[q]))
    && (forall q :: j < q <= i ==> Rank(s[j]) <= Rank(s[q]))
  }

  lemma SinkStart(s: seq<Record>, i: nat)
    requires i < |s| && RanksSorted(s, i)
    ensures Sinking(s, i, i)
  {
  }

  /** Swapping s[j] below a predecessor of higher rank keeps the sinking shape one place down. */
  lemma SinkStep(s: seq<Record>, i: nat, j: nat)
    requires Sinking(s, i, j) && 0 < j && Rank(s[j]) < Rank(s[j - 1])
    ensures Sinking(s[j - 1 := s[j]][j := s[j - 1]], i, j - 1)
  {
  }

  /** Once s[j] is at the front or not below its predecessor, s[..i + 1] is ordered. */
  lemma SinkDone(s: seq<Record>, i: nat, j: nat)
    requires Sinking(s, i, j) && (j == 0 || Rank(s[j - 1]) <= Rank(s[j]))
    ensures RanksSorted(s, i + 1)
  {
    forall p, q | 0 <= p < q <= i
      ensures Rank(s[p]) <= Rank(s[q])
    {
      if q == j && p < j - 1 {
        assert Rank(s[p]) <= Rank(s[j - 1]);
      }
    }
  }

  /** Swapping two adjacent records at or below i leaves everything after i in place. */
  lemma SwapKeepsSuffix(s: seq<Record>, i: nat, j: nat)
    requires 0 < j <= i < |s|
    ensures s[j - 1 := s[j]][j := s[j - 1]][i + 1..] == s[i + 1..]
  {
  }

  /** Two permutations of each other that agree from k on are permutations of each other below k. */
  lemma PrefixPermutation(s: seq<Record>, t: seq<Record>, k: nat)
    requires k <= |s| == |t| && multiset(s) == multiset(t) && s[k..] == t[k..]
    ensures multiset(s[..k]) == multiset(t[..k])
  {
    assert s == s[..k] + s[k..];
    assert t == t[..k] + t[k..];
    assert multiset(s) == multiset(s[..k]) + multiset(s[k..]);
    assert multiset(t) == multiset(t[..k]) + multiset(t[k..]);
    MultisetCancel(multiset(s[..k]), multiset(t[..k]), multiset(s[k..]));
  }

  /** One sinking step: swaps a[j] below its higher-ranked predecessor. */
  method SinkOnce(a: array<Record>, i: nat, j: nat)
    requires 0 < j <= i < a.Length && Sinking(a[..], i, j) && Rank(a[j]) < Rank(a[j - 1])
    modifies a
    ensures a[..] == old(a[..])[j - 1 := old(a[j])][j := old(a[j - 1])]
    ensures Sinking(a[..], i, j - 1)
    ensures multiset(a[..]) == old(multiset(a[..]))
    ensures a[i + 1..] == old(a[i + 1..])
  {
    ghost var s := a[..];
    SinkStep(s, i, j);
    SwapKeepsSuffix(s, i, j);
    SwapAdjacent(a, j);
    assert a[i + 1..] == a[..][i + 1..];
  }

  /** The sinking loop: moves a[i] down past every higher-ranked predecessor. */
  method Sink(a: array<Record>, i: nat)
    requires i < a.Length && RanksSorted(a[..], i)
    modifies a
    ensures RanksSorted(a[..], i + 1)
    ensures multiset(a[..]) == old(multiset(a[..]))
    ensures a[i + 1..] == old(a[i + 1..])
  {
    var j := i;
    SinkStart(a[..], i);
    while 0 < j && HeaderLess(a[j], a[j - 1])
      invariant 0 <= j <= i
      invariant Sinking(a[..], i, j)
      invariant multiset(a[..]) == old(multiset(a[..]))
      invariant a[i + 1..] == old(a[i + 1..])
    {
      HeaderLessIsRankLess(a[j], a[j - 1]);
      SinkOnce(a, i, j);
      j := j - 1;
    }
    if 0 < j {
      HeaderLessIsRankLess(a[j], a[j - 1]);
    }
    SinkDone(a[..], i, j);
  }

  /**
   * Sinks a[i] into the sorted prefix a[..i], leaving a[..i + 1] a sorted
   * permutation of what it held and a[i + 1..] as it was.
   */
  method InsertAt(a: array<Record>, i: nat)
    requires i < a.Length && RanksSorted(a[..], i)
    modifies a
    ensures RanksSorted(a[..], i + 1)
    ensures multiset(a[..]) == old(multiset(a[..]))
    ensures a[i + 1..] == old(a[i + 1..])
    ensures multiset(a[..i + 1]) == old(multiset(a[..i + 1]))
  {
    ghost var before := a[..];
    Sink(a, i);
    PrefixPermutation(a[..], before, i + 1);
  }

  lemma RanksSortedIsSorted(s: seq<Record>)
    requires forall p, q :: 0 <= p < q < |s| ==> Rank(s[p]) <= Rank(s[q])
    ensures Sorted(s)
  {
    forall p, q | 0 <= p < q < |s|
      ensures !HeaderLess(s[q], s[p])
    {
      HeaderLessIsRankLess(s[q], s[p]);
    }
  }

  /** Sorts the buffer in place under the header comparator (insertion sort; no record storage is allocated). */
  method SortRecords(a: array<Record>)
    modifies a
    ensures Sorted(a[..])
    ensures multiset(a[..]) == old(multiset(a[..]))
  {
    var i := 0;
    while i < a.Length
      invariant 0 <= i <= a.Length
      invariant RanksSorted(a[..], i)
      invariant multiset(a[..]) == old(multiset(a[..]))
    {
      InsertAt(a, i);
      i := i + 1;
    }
    RanksSortedIsSorted(a[..]);
  }

  // ---------------------------------------------------------------------------
  // SortAndPartition
  // ---------------------------------------------------------------------------

  /**
   * The keys of a[..] never decrease: what the scan relies on. It is the
   * conclusion of SortedKeysNonDecreasing, stated on the array the scan reads.
   */
  ghost predicate KeysNonDecreasing(a: array<Record>)
    reads a
  {
    forall i, j :: 0 <= i <= j < a.Length ==> KeyOf(a[i]) <= KeyOf(a[j])
  }

  /** Advances the cursor past every record whose key is below `bound`. */
  method SkipBelow(a: array<Record>, from: nat, bound: Key) returns (end: nat)
    requires from <= a.Length && KeysNonDecreasing(a)
    ensures from <= end <= a.Length
    ensures forall j :: from <= j < end ==> KeyOf(a[j]) < bound
    ensures forall j :: end <= j < a.Length ==> bound <= KeyOf(a[j])
  {
    end := from;
    while end < a.Length && KeyOf(a[end]) < bound
      invariant from <= end <= a.Length
      invariant forall j :: from <= j < end ==> KeyOf(a[j]) < bound
    {
      end := end + 1;
    }
  }

  /**
   * What the scan has established after cutting |parts| partitions at
   * cursor `off`: they tile a[..off], each holds only keys of its own range,
   * and every record from `off` on has a key at or above the next boundary.
   */
  ghost predicate ScannedUpTo(a: array<Record>, boundaries: seq<Key>, parts: seq<Partition>, off: nat)
    reads a
  {
    && |parts| <= |boundaries|
    && off <= a.Length
    && (|parts| == 0 ==> off == 0)
    && (|parts| > 0 ==> parts[0].offset == 0 && parts[|parts| - 1].offset + parts[|parts| - 1].size == off)
    && BackToBack(parts)
    && (forall k :: 0 <= k < |parts| ==> parts[k].offset + parts[k].size <= off)
    && (forall k, j :: 0 <= k < |parts| && parts[k].offset <= j < parts[k].offset + parts[k].size && j < a.Length ==>
          InRange(boundaries, k, KeyOf(a[j])))
    && (|parts| < |boundaries| ==> forall j :: off <= j < a.Length ==> boundaries[|parts|] <= KeyOf(a[j]))
  }

  /** Cutting the next partition [off, end) keeps the scan's invariant. */
  lemma ScanStep(a: array<Record>, boundaries: seq<Key>, parts: seq<Partition>, off: nat, end: nat)
    requires ScannedUpTo(a, boundaries, parts, off) && |parts| < |boundaries|
    requires off <= end <= a.Length
    requires forall j :: off <= j < end ==> KeyOf(a[j]) < UpperEnd(boundaries, |parts|)
    requires forall j :: end <= j < a.Length ==> |parts| + 1 < |boundaries| ==> boundaries[|parts| + 1] <= KeyOf(a[j])
    ensures ScannedUpTo(a, boundaries, parts + [Partition(off, end - off)], end)
  {
    var i := |parts|;
    var parts' := parts + [Partition(off, end - off)];
    assert forall k :: 0 <= k < i ==> parts'[k] == parts[k];
    forall k, j | 0 <= k < |parts'| && parts'[k].offset <= j < parts'[k].offset + parts'[k].size && j < a.Length
      ensures InRange(boundaries, k, KeyOf(a[j]))
    {
      if k == i {
        assert boundaries[i] <= KeyOf(a[j]);
      }
    }
  }

  /**
   * The scan of a sorted buffer: one partition per boundary, tiling the
   * buffer, partition i holding the records whose key lies in range i.
   */
  method ScanPartitions(a: array<Record>, boundaries: seq<Key>) returns (parts: seq<Partition>)
    requires ValidBoundaries(boundaries) && KeysNonDecreasing(a)
    ensures |parts| == |boundaries|
    ensures Tiles(parts, a.Length)
    ensures forall i :: 0 <= i < |parts| ==> parts[i].offset + parts[i].size <= a.Length
    ensures forall i, j :: 0 <= i < |parts| && parts[i].offset <= j < parts[i].offset + parts[i].size && j < a.Length ==>
      InRange(boundaries, i, KeyOf(a[j]))
  {
    var off: nat := 0;
    parts := [];
    while |parts| < |boundaries|
      invariant ScannedUpTo(a, boundaries, parts, off)
      invariant |parts| == |boundaries| ==> off == a.Length
      decreases |boundaries| - |parts|
    {
      var i := |parts|;
      var end := a.Length;
      if i + 1 < |boundaries| {
        end := SkipBelow(a, off, boundaries[i + 1]);
      }
      ScanStep(a, boundaries, parts, off, end);
      parts, off := parts + [Partition(off, end - off)], end;
    }
  }

  /**
   * SortAndPartition: sorts the buffer in place, then returns one partition
   * per boundary: they tile the buffer, and partition i holds exactly the
   * records whose key lies in [boundaries[i], boundaries[i + 1]) (the last
   * one: all keys from boundaries[last] up).
   */
  method SortAndPartition(a: array<Record>, boundaries: seq<Key>) returns (parts: seq<Partition>)
    requires ValidBoundaries(boundaries)
    modifies a
    ensures Sorted(a[..])
    ensures multiset(a[..]) == old(multiset(a[..]))
    ensures |parts| == |boundaries|
    ensures Tiles(parts, a.Length)
    ensures forall i :: 0 <= i < |parts| ==> parts[i].offset + parts[i].size <= a.Length
    ensures forall i, j :: 0 <= i < |parts| && parts[i].offset <= j < parts[i].offset + parts[i].size && j < a.Length ==>
      InRange(boundaries, i, KeyOf(a[j]))
  {
    SortRecords(a);
    SortedKeysNonDecreasing(a[..]);
    parts := ScanPartitions(a, boundaries);
  }
}
