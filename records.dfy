/**
 * Fixed-layout records of the sort library: a 100-byte record is a 10-byte
 * header followed by a 90-byte body. The first 8 header bytes hold the key
 * as a big-endian unsigned 64-bit integer; all ordering is a byte-wise
 * (memcmp) comparison of the whole 10-byte header.
 */
module Records {

  const HEADER_SIZE: nat := 10
  const RECORD_SIZE: nat := 100
  const KEY_SIZE: nat := 8
  /** 2^64: the size of the key space. */
  const KEY_SPACE: nat := 0x1_0000_0000_0000_0000

  type Byte = b: int | 0 <= b < 256

  /** An unsigned 64-bit key. */
  type Key = k: int | 0 <= k < 0x1_0000_0000_0000_0000

  datatype RawRecord = RawRecord(header: seq<Byte>, body: seq<Byte>)

  /** A record has exactly HEADER_SIZE header bytes and RECORD_SIZE - HEADER_SIZE body bytes. */
  type Record = r: RawRecord | |r.header| == HEADER_SIZE && |r.body| == RECORD_SIZE - HEADER_SIZE
    witness RawRecord(seq(10, _ => 0), seq(90, _ => 0))

  // ---------------------------------------------------------------------------
  // Byte-order arithmetic
  // ---------------------------------------------------------------------------

  function Pow256(n: nat): (p: nat)
    ensures p >= 1
  {
    if n == 0 then 1 else 256 * Pow256(n - 1)
  }

  lemma MulMonotone(x: nat, y: nat, p: nat)
    requires x <= y
    ensures x * p <= y * p
  {
  }

  /** The unsigned value of `bs` read most significant byte first. */
  function BigEndian(bs: seq<Byte>): (v: nat)
    ensures v < Pow256(|bs|)
  {
    if bs == [] then 0
    else
      var p := Pow256(|bs| - 1);
      var d: nat := bs[0];
      var rest := BigEndian(bs[1..]);
      MulMonotone(d + 1, 256, p);
      assert (d + 1) * p == d * p + p;
      d * p + rest
  }

  /** The unsigned value of `bs` read least significant byte first (a native load on a little-endian machine). */
  function LittleEndian(bs: seq<Byte>): nat
  {
    if bs == [] then 0 else bs[0] + 256 * LittleEndian(bs[1..])
  }

  function Reverse(bs: seq<Byte>): (r: seq<Byte>)
    ensures |r| == |bs|
    ensures forall i :: 0 <= i < |bs| ==> r[i] == bs[|bs| - 1 - i]
  {
    if bs == [] then [] else Reverse(bs[1..]) + [bs[0]]
  }

  /** The `n`-byte big-endian encoding of `v` (the inverse of BigEndian). */
  function EncodeBigEndian(v: nat, n: nat): (bs: seq<Byte>)
    ensures |bs| == n
  {
    if n == 0 then [] else EncodeBigEndian(v / 256, n - 1) + [v % 256]
  }

  lemma {:induction false} LittleEndianAppend(s: seq<Byte>, x: Byte)
    ensures LittleEndian(s + [x]) == LittleEndian(s) + x * Pow256(|s|)
  {
    if s == [] {
      assert ([] + [x])[1..] == [];
    } else {
      assert (s + [x])[1..] == s[1..] + [x];
      LittleEndianAppend(s[1..], x);
      calc {
        LittleEndian(s + [x]);
        s[0] + 256 * LittleEndian(s[1..] + [x]);
        s[0] + 256 * (LittleEndian(s[1..]) + x * Pow256(|s| - 1));
        s[0] + 256 * LittleEndian(s[1..]) + x * (256 * Pow256(|s| - 1));
      }
    }
  }

  lemma {:induction false} BigEndianAppend(s: seq<Byte>, x: Byte)
    ensures BigEndian(s + [x]) == BigEndian(s) * 256 + x
  {
    if s == [] {
      assert ([] + [x])[1..] == [];
    } else {
      assert (s + [x])[1..] == s[1..] + [x];
      BigEndianAppend(s[1..], x);
      var p := Pow256(|s| - 1);
      calc {
        BigEndian(s + [x]);
        s[0] * Pow256(|s|) + BigEndian(s[1..] + [x]);
        s[0] * (256 * p) + BigEndian(s[1..]) * 256 + x;
        (s[0] * p + BigEndian(s[1..])) * 256 + x;
      }
    }
  }

  /** Reading bytes big-endian is loading them little-endian after reversing their order (a byte swap). */
  lemma {:induction false} BigEndianIsSwappedLittleEndian(bs: seq<Byte>)
    ensures BigEndian(bs) == LittleEndian(Reverse(bs))
  {
    if bs != [] {
      BigEndianIsSwappedLittleEndian(bs[1..]);
      LittleEndianAppend(Reverse(bs[1..]), bs[0]);
    }
  }

  lemma {:induction false} DecodeEncode(v: nat, n: nat)
    requires v < Pow256(n)
    ensures BigEndian(EncodeBigEndian(v, n)) == v
  {
    if n > 0 {
      assert v / 256 < Pow256(n - 1);
      DecodeEncode(v / 256, n - 1);
      BigEndianAppend(EncodeBigEndian(v / 256, n - 1), v % 256);
    }
  }

  lemma {:induction false} EncodeDecode(bs: seq<Byte>)
    ensures EncodeBigEndian(BigEndian(bs), |bs|) == bs
  {
    if bs != [] {
      var init, last := bs[..|bs| - 1], bs[|bs| - 1];
      assert bs == init + [last];
      BigEndianAppend(init, last);
      assert BigEndian(bs) / 256 == BigEndian(init);
      assert BigEndian(bs) % 256 == last;
      EncodeDecode(init);
    }
  }

  /** Equal-length byte strings with the same big-endian value are equal. */
  lemma BigEndianInjective(a: seq<Byte>, b: seq<Byte>)
    requires |a| == |b| && BigEndian(a) == BigEndian(b)
    ensures a == b
  {
    EncodeDecode(a);
    EncodeDecode(b);
  }

  lemma ShiftAdd(a: nat, w: nat, b: nat, x: nat)
    ensures (a * w + b) * 256 + x == a * (256 * w) + (b * 256 + x)
  {
  }

  /** The big-endian value of a concatenation. */
  lemma {:induction false} BigEndianConcat(p: seq<Byte>, q: seq<Byte>)
    ensures BigEndian(p + q) == BigEndian(p) * Pow256(|q|) + BigEndian(q)
    decreases |q|
  {
    if q == [] {
      assert p + q == p;
    } else {
      var q', x := q[..|q| - 1], q[|q| - 1];
      assert q == q' + [x];
      assert p + q == (p + q') + [x];
      BigEndianConcat(p, q');
      BigEndianAppend(p + q', x);
      BigEndianAppend(q', x);
      var a, w, b := BigEndian(p), Pow256(|q'|), BigEndian(q');
      assert Pow256(|q|) == 256 * w;
      ShiftAdd(a, w, b, x);
    }
  }

  // ---------------------------------------------------------------------------
  // Key
  // ---------------------------------------------------------------------------

  /**
   * Record::key(): the first KEY_SIZE header bytes as a big-endian unsigned
   * 64-bit integer, which is what the source computes as the byte-swapped
   * native (little-endian) load of those bytes.
   */
  function KeyOf(r: Record): (k: Key)
    ensures k == LittleEndian(Reverse(r.header[..KEY_SIZE]))
  {
    assert Pow256(KEY_SIZE) == KEY_SPACE;
    BigEndianIsSwappedLittleEndian(r.header[..KEY_SIZE]);
    BigEndian(r.header[..KEY_SIZE])
  }

  /** Two records have the same key exactly when their first KEY_SIZE header bytes agree. */
  lemma KeyDeterminedByKeyBytes(a: Record, b: Record)
    ensures KeyOf(a) == KeyOf(b) <==> a.header[..KEY_SIZE] == b.header[..KEY_SIZE]
  {
    if KeyOf(a) == KeyOf(b) {
      BigEndianInjective(a.header[..KEY_SIZE], b.header[..KEY_SIZE]);
    }
  }

  /** The 8-byte big-endian encoding of a key is decoded back to that key. */
  lemma KeyEncodingRoundTrip(k: Key, tie: seq<Byte>, body: seq<Byte>)
    requires |tie| == HEADER_SIZE - KEY_SIZE && |body| == RECORD_SIZE - HEADER_SIZE
    ensures KeyOf(RawRecord(EncodeBigEndian(k, KEY_SIZE) + tie, body)) == k
  {
    var h := EncodeBigEndian(k, KEY_SIZE) + tie;
    assert h[..KEY_SIZE] == EncodeBigEndian(k, KEY_SIZE);
    assert Pow256(KEY_SIZE) == KEY_SPACE;
    DecodeEncode(k, KEY_SIZE);
  }

  // ---------------------------------------------------------------------------
  // Header comparator
  // ---------------------------------------------------------------------------

  /**
   * memcmp over equal-length byte strings: the difference of the first pair
   * of differing bytes, or 0 when the strings are equal.
   */
  function Memcmp(a: seq<Byte>, b: seq<Byte>): (c: int)
    requires |a| == |b|
    ensures -255 <= c <= 255
  {
    if a == [] then 0
    else if a[0] != b[0] then a[0] as int - b[0] as int
    else Memcmp(a[1..], b[1..])
  }

  /** memcmp reports 0 exactly for equal strings. */
  lemma {:induction false} MemcmpZeroIffEqual(a: seq<Byte>, b: seq<Byte>)
    requires |a| == |b|
    ensures Memcmp(a, b) == 0 <==> a == b
  {
    if a != [] && a[0] == b[0] {
      MemcmpZeroIffEqual(a[1..], b[1..]);
      assert a == [a[0]] + a[1..] && b == [b[0]] + b[1..];
    }
  }

  /** Lexicographic order on equal-length byte strings, stated independently of Memcmp. */
  ghost predicate LexLess(a: seq<Byte>, b: seq<Byte>)
    requires |a| == |b|
  {
    exists k :: 0 <= k < |a| && a[..k] == b[..k] && a[k] < b[k]
  }

  lemma {:induction false} MemcmpIsLexicographic(a: seq<Byte>, b: seq<Byte>)
    requires |a| == |b|
    ensures Memcmp(a, b) < 0 <==> LexLess(a, b)
  {
    if a == [] {
    } else if a[0] < b[0] {
      assert a[..0] == b[..0];
    } else if a[0] > b[0] {
      forall k | 0 <= k < |a|
        ensures a[..k] == b[..k] ==> a[k] >= b[k]
      {
        if k > 0 {
          assert a[..k][0] == a[0] && b[..k][0] == b[0];
        }
      }
    } else {
      MemcmpIsLexicographic(a[1..], b[1..]);
      if LexLess(a, b) {
        var k :| 0 <= k < |a| && a[..k] == b[..k] && a[k] < b[k];
        assert k > 0;
        assert a[1..][..k - 1] == a[..k][1..] == b[..k][1..] == b[1..][..k - 1];
        assert LexLess(a[1..], b[1..]);
      }
      if LexLess(a[1..], b[1..]) {
        var k :| 0 <= k < |a| - 1 && a[1..][..k] == b[1..][..k] && a[1..][k] < b[1..][k];
        assert a[..k + 1] == [a[0]] + a[1..][..k];
        assert b[..k + 1] == [b[0]] + b[1..][..k];
        assert LexLess(a, b);
      }
    }
  }

  /** A smaller leading byte gives a smaller big-endian value, whatever follows. */
  lemma LeadingByteDecides(a: seq<Byte>, b: seq<Byte>)
    requires |a| == |b| > 0 && a[0] < b[0]
    ensures BigEndian(a) < BigEndian(b)
  {
    var p := Pow256(|a| - 1);
    var x: nat, y: nat := a[0], b[0];
    MulMonotone(x + 1, y, p);
    assert BigEndian(a) < (x + 1) * p;
  }

  /** memcmp orders equal-length byte strings as their big-endian values. */
  lemma {:induction false} MemcmpIsNumeric(a: seq<Byte>, b: seq<Byte>)
    requires |a| == |b|
    ensures Memcmp(a, b) < 0 <==> BigEndian(a) < BigEndian(b)
  {
    if a != [] {
      if a[0] < b[0] {
        LeadingByteDecides(a, b);
      } else if a[0] > b[0] {
        LeadingByteDecides(b, a);
      } else {
        MemcmpIsNumeric(a[1..], b[1..]);
      }
    }
  }

  /** HeaderComparator: true when a's header is memcmp-less than b's, that is, lexicographically smaller. */
  predicate HeaderLess(a: Record, b: Record): (lt: bool)
    ensures lt <==> LexLess(a.header, b.header)
  {
    MemcmpIsLexicographic(a.header, b.header);
    Memcmp(a.header, b.header) < 0
  }

  /** The whole header read as an 80-bit big-endian number. */
  function Rank(r: Record): nat
  {
    BigEndian(r.header)
  }

  lemma HeaderLessIsRankLess(a: Record, b: Record)
    ensures HeaderLess(a, b) <==> Rank(a) < Rank(b)
  {
    MemcmpIsNumeric(a.header, b.header);
  }

  lemma HeaderLessIrreflexive(a: Record)
    ensures !HeaderLess(a, a)
  {
    MemcmpZeroIffEqual(a.header, a.header);
  }

  lemma HeaderLessTransitive(a: Record, b: Record, c: Record)
    requires HeaderLess(a, b) && HeaderLess(b, c)
    ensures HeaderLess(a, c)
  {
    HeaderLessIsRankLess(a, b);
    HeaderLessIsRankLess(b, c);
    HeaderLessIsRankLess(a, c);
  }

  /** Records with different headers are always ordered one way or the other. */
  lemma HeaderLessTotal(a: Record, b: Record)
    ensures a.header != b.header <==> HeaderLess(a, b) || HeaderLess(b, a)
  {
    HeaderLessIsRankLess(a, b);
    HeaderLessIsRankLess(b, a);
    if Rank(a) == Rank(b) {
      BigEndianInjective(a.header, b.header);
    }
  }

  /** The rank is the key followed by the two tie-breaking header bytes. */
  lemma RankSplitsAtKey(r: Record)
    ensures Rank(r) == KeyOf(r) * 65536 + BigEndian(r.header[KEY_SIZE..])
    ensures BigEndian(r.header[KEY_SIZE..]) < 65536
  {
    assert r.header == r.header[..KEY_SIZE] + r.header[KEY_SIZE..];
    BigEndianConcat(r.header[..KEY_SIZE], r.header[KEY_SIZE..]);
    assert Pow256(HEADER_SIZE - KEY_SIZE) == 65536;
  }

  /** A smaller key means a smaller header, whatever the tie-breaking bytes. */
  lemma KeyLessImpliesHeaderLess(a: Record, b: Record)
    requires KeyOf(a) < KeyOf(b)
    ensures HeaderLess(a, b)
  {
    RankSplitsAtKey(a);
    RankSplitsAtKey(b);
    MulMonotone(KeyOf(a) + 1, KeyOf(b), 65536);
    HeaderLessIsRankLess(a, b);
  }

  /** The header order never puts a larger key first. */
  lemma HeaderLessImpliesKeyLeq(a: Record, b: Record)
    requires HeaderLess(a, b)
    ensures KeyOf(a) <= KeyOf(b)
  {
    if KeyOf(b) < KeyOf(a) {
      KeyLessImpliesHeaderLess(b, a);
      HeaderLessIsRankLess(a, b);
      HeaderLessIsRankLess(b, a);
    }
  }

  // ---------------------------------------------------------------------------
  // Sorted sequences of records
  // ---------------------------------------------------------------------------

  /** Non-decreasing under the header comparator: no later record is less than an earlier one. */
  ghost predicate Sorted(s: seq<Record>)
  {
    forall i, j {:trigger HeaderLess(s[j], s[i])} :: 0 <= i < j < |s| ==> !HeaderLess(s[j], s[i])
  }

  /** Multisets of records cancel on the right. */
  lemma MultisetCancel(a: multiset<Record>, b: multiset<Record>, t: multiset<Record>)
    requires a + t == b + t
    ensures a == b
  {
    assert forall x :: a[x] == (a + t)[x] - t[x];
  }

  /** In a sorted sequence the keys are non-decreasing. */
  lemma SortedKeysNonDecreasing(s: seq<Record>)
    requires Sorted(s)
    ensures forall i, j :: 0 <= i <= j < |s| ==> KeyOf(s[i]) <= KeyOf(s[j])
  {
    forall i, j | 0 <= i <= j < |s|
      ensures KeyOf(s[i]) <= KeyOf(s[j])
    {
      if KeyOf(s[j]) < KeyOf(s[i]) {
        KeyLessImpliesHeaderLess(s[j], s[i]);
      }
    }
  }
}
