/** Keys as most-significant-bit-first bit strings, and the byte-level routines that read them.

The nodes keep pointers to little-endian byte keys.  `CompareStage` and `isNthBitSetInString`
are the only code that looks inside a key; everything else works on the bit string that
`BitsOf` describes. */
module Keys {

  /** A key: its bits, most significant first.  All keys of a node have the same length. */
  type Key = seq<bool>

  /** The position of the first bit in which two keys differ, or their length if they are equal. */
  function DiffFrom(a: Key, b: Key, i: nat): (d: nat)
    requires |a| == |b| && i <= |a|
    ensures i <= d <= |a|
    ensures forall j :: i <= j < d ==> a[j] == b[j]
    ensures d < |a| ==> a[d] != b[d]
    decreases |a| - i
  {
    if i == |a| || a[i] != b[i] then i else DiffFrom(a, b, i + 1)
  }

  function Diff(a: Key, b: Key): (d: nat)
    requires |a| == |b|
    ensures d <= |a|
    ensures forall j :: 0 <= j < d ==> a[j] == b[j]
    ensures d < |a| ==> a[d] != b[d]
    ensures d == |a| <==> a == b
  {
    DiffFrom(a, b, 0)
  }

  /** The order of the keys read as unsigned numbers. */
  predicate Less(a: Key, b: Key)
    requires |a| == |b|
  {
    var d := Diff(a, b);
    d < |a| && b[d]
  }

  lemma DiffUnique(a: Key, b: Key, d: nat)
    requires |a| == |b| && d < |a|
    requires forall j :: 0 <= j < d ==> a[j] == b[j]
    requires a[d] != b[d]
    ensures Diff(a, b) == d
  {
  }

  lemma DiffSymmetric(a: Key, b: Key)
    requires |a| == |b|
    ensures Diff(a, b) == Diff(b, a)
  {
    if Diff(a, b) < |a| {
      DiffUnique(b, a, Diff(a, b));
    }
  }

  lemma LessTransitive(a: Key, b: Key, c: Key)
    requires |a| == |b| == |c|
    requires Less(a, b) && Less(b, c)
    ensures Less(a, c)
    ensures Diff(a, c) == if Diff(a, b) < Diff(b, c) then Diff(a, b) else Diff(b, c)
  {
    var d := if Diff(a, b) < Diff(b, c) then Diff(a, b) else Diff(b, c);
    DiffUnique(a, c, d);
  }

  lemma LessTotal(a: Key, b: Key)
    requires |a| == |b|
    ensures a == b || Less(a, b) || Less(b, a)
    ensures !(Less(a, b) && Less(b, a))
  {
    DiffSymmetric(a, b);
  }

  /** All keys have the given number of bits. */
  predicate Uniform(keys: seq<Key>, bits: nat)
  {
    forall i :: 0 <= i < |keys| ==> |keys[i]| == bits
  }

  ghost predicate StrictlySorted(keys: seq<Key>, bits: nat)
    requires Uniform(keys, bits)
  {
    forall i, j :: 0 <= i < j < |keys| ==> Less(keys[i], keys[j])
  }

  /** `r` splits `keys` into those at most `q` and those above it, so `r - 1` is the position
      of the largest key not greater than `q` and `r == 0` means that `q` is below every key. */
  ghost predicate IsRank(keys: seq<Key>, bits: nat, q: Key, r: nat)
    requires Uniform(keys, bits) && |q| == bits
  {
    && r <= |keys|
    && (forall i :: 0 <= i < r ==> !Less(q, keys[i]))
    && (forall i :: r <= i < |keys| ==> Less(q, keys[i]))
  }

  lemma HitIsRank(keys: seq<Key>, bits: nat, q: Key, p: nat)
    requires Uniform(keys, bits) && StrictlySorted(keys, bits) && p < |keys| && keys[p] == q
    ensures IsRank(keys, bits, q, p + 1)
  {
    forall i | 0 <= i < p + 1
      ensures !Less(q, keys[i])
    {
      if i < p { LessTotal(keys[i], q); }
    }
  }

  // ------------------------------------------------------------------------------------
  // Bytes
  // ------------------------------------------------------------------------------------

  function Mask(n: nat): bv8
    requires n < 8
  {
    [128, 64, 32, 16, 8, 4, 2, 1][n]
  }

  predicate IsNthBitSetInByte(byte: bv8, n: nat)
    requires n < 8
  {
    byte & Mask(n) != 0
  }

  /** Position 0 is the top bit of the last byte: the key is stored little-endian. */
  predicate IsNthBitSetInString(key: seq<bv8>, position: nat, len: nat)
    requires len == |key| && position < 8 * len
  {
    IsNthBitSetInByte(key[len - 1 - position / 8], position % 8)
  }

  function FirstMsbLookUpTable(maskByte: bv8): (n: nat)
    requires maskByte != 0
    ensures n < 8
    ensures IsNthBitSetInByte(maskByte, n)
    ensures forall j :: 0 <= j < n ==> !IsNthBitSetInByte(maskByte, j)
  {
    if maskByte < 2 then 7
    else if maskByte < 4 then 6
    else if maskByte < 8 then 5
    else if maskByte < 16 then 4
    else if maskByte < 32 then 3
    else if maskByte < 64 then 2
    else if maskByte < 128 then 1
    else 0
  }

  /** The bit string a stored key stands for. */
  function BitsOf(key: seq<bv8>): (k: Key)
    ensures |k| == 8 * |key|
  {
    seq(8 * |key|, p requires 0 <= p < 8 * |key| => IsNthBitSetInString(key, p, |key|))
  }

  lemma XorBits(x: bv8, y: bv8, j: nat)
    requires j < 8
    ensures IsNthBitSetInByte(x ^ y, j) <==> IsNthBitSetInByte(x, j) != IsNthBitSetInByte(y, j)
  {
    XorMask(x, y, Mask(j));
  }

  lemma XorMask(x: bv8, y: bv8, m: bv8)
    requires m & (m - 1) == 0
    ensures (x ^ y) & m != 0 <==> (x & m != 0) != (y & m != 0)
  {
    assert (x ^ y) & m == (x & m) ^ (y & m);
  }

  /** The top differing bit decides the comparison of two bytes. */
  lemma TopBitDecides(x: bv8, y: bv8)
    requires x ^ y != 0
    ensures x > y <==> IsNthBitSetInByte(x, FirstMsbLookUpTable(x ^ y))
  {
  }

  /** What one comparison of two stored keys has to report. */
  ghost predicate ComparesTo(key1: seq<bv8>, key2: seq<bv8>, diff: nat, eq: bool, bigSmall: bool)
    requires |key1| == |key2|
  {
    && (eq <==> key1 == key2)
    && (eq ==> diff == 0)
    && (!eq ==> diff == Diff(BitsOf(key1), BitsOf(key2)) && diff < 8 * |key1|)
    && (!eq ==> bigSmall == Less(BitsOf(key2), BitsOf(key1)))
  }

  /** `CompareStage`: one pass over two stored keys, most significant byte first. */
  method CompareStage(key1: seq<bv8>, key2: seq<bv8>) returns (diff: nat, eq: bool, bigSmall: bool)
    requires |key1| == |key2|
    ensures ComparesTo(key1, key2, diff, eq, bigSmall)
  {
    hide BitsOf, Diff, Less, Mask, FirstMsbLookUpTable, IsNthBitSetInByte;
    var len := |key1|;
    var i := 1;
    while i <= len
      invariant 1 <= i <= len + 1
      invariant forall j :: len - i < j < len ==> key1[j] == key2[j]
    {
      var maskByte := key1[len - i] ^ key2[len - i];
      if maskByte != 0 {
        CompareFound(key1, key2, i);
        return 8 * (i - 1) + FirstMsbLookUpTable(maskByte), false, key1[len - i] > key2[len - i];
      }
      XorZero(key1[len - i], key2[len - i]);
      i := i + 1;
    }
    BytesAgree(key1, key2);
    return 0, true, false;
  }

  lemma BytesDiffer(key1: seq<bv8>, key2: seq<bv8>, p: nat)
    requires |key1| == |key2| && p < |key1| && key1[p] ^ key2[p] != 0
    ensures key1 != key2
  {
    XorSelf(key1[p], key2[p]);
  }

  lemma BytesAgree(key1: seq<bv8>, key2: seq<bv8>)
    requires |key1| == |key2| && forall j :: 0 <= j < |key1| ==> key1[j] == key2[j]
    ensures key1 == key2
  {
  }

  lemma XorZero(x: bv8, y: bv8)
    requires x ^ y == 0
    ensures x == y
  {
  }

  lemma CompareFound(key1: seq<bv8>, key2: seq<bv8>, i: nat)
    requires |key1| == |key2| && 1 <= i <= |key1|
    requires forall j :: |key1| - i < j < |key1| ==> key1[j] == key2[j]
    requires key1[|key1| - i] ^ key2[|key1| - i] != 0
    ensures ComparesTo(key1, key2, 8 * (i - 1) + FirstMsbLookUpTable(key1[|key1| - i] ^ key2[|key1| - i]), false,
                       key1[|key1| - i] > key2[|key1| - i])
  {
    CompareFoundDiff(key1, key2, i, 8 * (i - 1) + FirstMsbLookUpTable(key1[|key1| - i] ^ key2[|key1| - i]));
    BytesDiffer(key1, key2, |key1| - i);
  }

  lemma CompareFoundDiff(key1: seq<bv8>, key2: seq<bv8>, i: nat, diff: nat)
    requires |key1| == |key2| && 1 <= i <= |key1|
    requires forall j :: |key1| - i < j < |key1| ==> key1[j] == key2[j]
    requires key1[|key1| - i] ^ key2[|key1| - i] != 0
    requires diff == 8 * (i - 1) + FirstMsbLookUpTable(key1[|key1| - i] ^ key2[|key1| - i])
    ensures diff == Diff(BitsOf(key1), BitsOf(key2))
    ensures Less(BitsOf(key2), BitsOf(key1)) <==> key1[|key1| - i] > key2[|key1| - i]
  {
    HigherBytesAgree(key1, key2, i);
    DecidingByte(key1, key2, i, diff);
    DiffBySections(BitsOf(key1), BitsOf(key2), 8 * (i - 1), diff);
  }

  lemma DiffBySections(a: Key, b: Key, m: nat, d: nat)
    requires |a| == |b| && m <= d < |a|
    requires forall j :: 0 <= j < m ==> a[j] == b[j]
    requires forall j :: m <= j < d ==> a[j] == b[j]
    requires a[d] != b[d]
    ensures Diff(a, b) == d
    ensures Less(b, a) <==> a[d]
  {
    DiffUnique(a, b, d);
    DiffSymmetric(a, b);
  }

  lemma DecidingByte(key1: seq<bv8>, key2: seq<bv8>, i: nat, diff: nat)
    requires |key1| == |key2| && 1 <= i <= |key1|
    requires key1[|key1| - i] ^ key2[|key1| - i] != 0
    requires diff == 8 * (i - 1) + FirstMsbLookUpTable(key1[|key1| - i] ^ key2[|key1| - i])
    ensures forall j :: 8 * (i - 1) <= j < diff ==> BitsOf(key1)[j] == BitsOf(key2)[j]
    ensures BitsOf(key1)[diff] != BitsOf(key2)[diff]
    ensures key1[|key1| - i] > key2[|key1| - i] <==> BitsOf(key1)[diff]
  {
    hide *;
    var x, y := key1[|key1| - i], key2[|key1| - i];
    TopByte(x, y, diff - 8 * (i - 1));
    ByteBits(key1, i);
    ByteBits(key2, i);
    forall j | 8 * (i - 1) <= j < diff
      ensures BitsOf(key1)[j] == BitsOf(key2)[j]
    {
      assert IsNthBitSetInByte(x, j - 8 * (i - 1)) == IsNthBitSetInByte(y, j - 8 * (i - 1));
    }
  }

  /** The eight bits of the `i`-th most significant byte. */
  lemma ByteBits(key: seq<bv8>, i: nat)
    requires 1 <= i <= |key|
    ensures forall j :: 8 * (i - 1) <= j < 8 * i ==> BitsOf(key)[j] == IsNthBitSetInByte(key[|key| - i], j - 8 * (i - 1))
  {
  }

  lemma HigherBytesAgree(key1: seq<bv8>, key2: seq<bv8>, i: nat)
    requires |key1| == |key2| && 1 <= i <= |key1|
    requires forall j :: |key1| - i < j < |key1| ==> key1[j] == key2[j]
    ensures forall p :: 0 <= p < 8 * (i - 1) ==> BitsOf(key1)[p] == BitsOf(key2)[p]
  {
    forall p | 0 <= p < 8 * (i - 1)
      ensures BitsOf(key1)[p] == BitsOf(key2)[p]
    {
      assert key1[|key1| - 1 - p / 8] == key2[|key1| - 1 - p / 8];
    }
  }

  lemma TopByte(x: bv8, y: bv8, n: nat)
    requires x ^ y != 0 && n == FirstMsbLookUpTable(x ^ y)
    ensures x != y
    ensures forall j :: 0 <= j < n ==> IsNthBitSetInByte(x, j) == IsNthBitSetInByte(y, j)
    ensures IsNthBitSetInByte(x, n) != IsNthBitSetInByte(y, n)
    ensures x > y <==> IsNthBitSetInByte(x, n)
  {
    forall j | 0 <= j < 8
      ensures IsNthBitSetInByte(x ^ y, j) <==> IsNthBitSetInByte(x, j) != IsNthBitSetInByte(y, j)
    {
      XorBits(x, y, j);
    }
    TopBitDecides(x, y);
    XorSelf(x, y);
  }

  lemma XorSelf(x: bv8, y: bv8)
    requires x ^ y != 0
    ensures x != y
  {
  }

  lemma ByteShows(key1: seq<bv8>, key2: seq<bv8>, p: nat) returns (j: nat)
    requires |key1| == |key2| && p < |key1|
    ensures key1[p] != key2[p] ==> j < |BitsOf(key1)| == |BitsOf(key2)| && BitsOf(key1)[j] != BitsOf(key2)[j]
  {
    hide *;
    j := 0;
    if key1[p] != key2[p] {
      XorNonZero(key1[p], key2[p]);
      j := PlaceOfByte(key1, key2, p);
    }
  }

  lemma PlaceOfByte(key1: seq<bv8>, key2: seq<bv8>, p: nat) returns (j: nat)
    requires |key1| == |key2| && p < |key1| && key1[p] ^ key2[p] != 0
    ensures j < |BitsOf(key1)| == |BitsOf(key2)| && BitsOf(key1)[j] != BitsOf(key2)[j]
  {
    hide *;
    var i := |key1| - p;
    var n := FirstMsbLookUpTable(key1[|key1| - i] ^ key2[|key1| - i]);
    j := 8 * (i - 1) + n;
    DecidingByte(key1, key2, i, j);
  }

  lemma XorNonZero(x: bv8, y: bv8)
    requires x != y
    ensures x ^ y != 0
  {
  }

  /** Two stored keys are equal exactly if their bit strings are. */
  lemma SameBytes(key1: seq<bv8>, key2: seq<bv8>)
    requires |key1| == |key2|
    ensures key1 == key2 <==> BitsOf(key1) == BitsOf(key2)
  {
    hide BitsOf;
    forall p | 0 <= p < |key1|
      ensures BitsOf(key1) == BitsOf(key2) ==> key1[p] == key2[p]
    {
      var j := ByteShows(key1, key2, p);
    }
  }
}
