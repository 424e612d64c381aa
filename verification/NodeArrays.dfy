/** The array moves shared by the node implementations. */
module NodeArrays {

  datatype InsertResult = InsertSuccess | InsertDuplicatedKey | InsertOverflow
  datatype RemoveResult = RemoveSuccess | RemoveNodeEmpty | RemoveUnderflow | RemoveKeyNotFound

  function InsertedAt<T>(s: seq<T>, i: nat, x: T): (r: seq<T>)
    requires i <= |s|
    ensures |r| == |s| + 1
  {
    s[..i] + [x] + s[i..]
  }

  function RemovedAt<T>(s: seq<T>, i: nat): (r: seq<T>)
    requires i < |s|
    ensures |r| == |s| - 1
    ensures forall j :: 0 <= j < |r| ==> r[j] in s
  {
    s[..i] + s[i + 1..]
  }

  lemma InsertedEnds<T>(a: seq<T>, x: T)
    ensures InsertedAt(a, 0, x) == [x] + a
    ensures InsertedAt(a, |a|, x) == a + [x]
  {
  }

  lemma PrefixAndRest<T>(s: seq<T>, p: seq<T>)
    requires |p| <= |s| && s[..|p|] == p
    ensures [] + p + s[|p|..] == s
  {
  }

  lemma InsertedRight<T>(a: seq<T>, b: seq<T>, i: nat, x: T)
    requires i <= |b|
    ensures a + InsertedAt(b, i, x) == InsertedAt(a + b, |a| + i, x)
  {
  }

  lemma InsertedLeft<T>(a: seq<T>, b: seq<T>, i: nat, x: T)
    requires i <= |a|
    ensures InsertedAt(a, i, x) + b == InsertedAt(a + b, i, x)
  {
  }

  lemma RemovedLeft<T>(a: seq<T>, b: seq<T>, i: nat)
    requires i < |a|
    ensures RemovedAt(a, i) + b == RemovedAt(a + b, i)
    ensures |a| == 1 ==> RemovedAt(a + b, i) == b
  {
  }

  lemma RemovedRight<T>(a: seq<T>, b: seq<T>, i: nat)
    requires i < |b|
    ensures a + RemovedAt(b, i) == RemovedAt(a + b, |a| + i)
    ensures |b| == 1 ==> RemovedAt(a + b, |a| + i) == a
  {
  }

  lemma OnlyRemoved<T>(s: seq<T>)
    requires |s| == 1
    ensures RemovedAt(s, 0) == []
  {
  }

  lemma ArraySlice<T>(a: array<T>, n: nat, lo: nat, hi: nat)
    requires lo <= hi <= n <= a.Length
    ensures a[..n][lo..hi] == a[lo..hi]
  {
  }

  /** Moves `a[lo..hi]` up by one slot, last element first, and stores `x` in the gap. */
  method ShiftUp<T>(a: array<T>, lo: nat, hi: nat, x: T)
    requires lo <= hi < a.Length
    modifies a
    ensures a[..hi + 1] == InsertedAt(old(a[..hi]), lo, x)
    ensures a[hi + 1..] == old(a[hi + 1..])
  {
    var i := hi;
    while i > lo
      invariant lo <= i <= hi
      invariant forall j :: 0 <= j < i ==> a[j] == old(a[j])
      invariant forall j :: i < j <= hi ==> a[j] == old(a[j - 1])
      invariant forall j :: hi < j < a.Length ==> a[j] == old(a[j])
    {
      a[i] := a[i - 1];
      i := i - 1;
    }
    a[lo] := x;
  }

  /** Moves `a[lo + 1..hi]` down by one slot. */
  method ShiftDown<T>(a: array<T>, lo: nat, hi: nat)
    requires lo < hi <= a.Length
    modifies a
    ensures a[..hi - 1] == RemovedAt(old(a[..hi]), lo)
    ensures a[hi..] == old(a[hi..])
  {
    var i := lo;
    while i < hi - 1
      invariant lo <= i <= hi - 1
      invariant forall j :: 0 <= j < lo ==> a[j] == old(a[j])
      invariant forall j :: lo <= j < i ==> a[j] == old(a[j + 1])
      invariant forall j :: i < j < a.Length ==> a[j] == old(a[j])
    {
      a[i] := a[i + 1];
      i := i + 1;
    }
  }

  /** Copies `src[lo..hi]` to `dst` from position `at` on, first element first. */
  method CopyForward<T>(src: array<T>, lo: nat, hi: nat, dst: array<T>, at: nat)
    requires src != dst && lo <= hi <= src.Length && at + (hi - lo) <= dst.Length
    modifies dst
    ensures dst[..at] == old(dst[..at])
    ensures dst[at..at + (hi - lo)] == src[lo..hi]
    ensures dst[at + (hi - lo)..] == old(dst[at + (hi - lo)..])
  {
    var j := lo;
    while j < hi
      invariant lo <= j <= hi
      invariant forall k :: 0 <= k < at ==> dst[k] == old(dst[k])
      invariant forall k :: lo <= k < j ==> dst[at + (k - lo)] == src[k]
      invariant forall k :: at + (j - lo) <= k < dst.Length ==> dst[k] == old(dst[k])
    {
      dst[at + (j - lo)] := src[j];
      j := j + 1;
    }
    forall k | 0 <= k < hi - lo
      ensures dst[at..at + (hi - lo)][k] == src[lo..hi][k]
    {
      assert dst[at + ((lo + k) - lo)] == src[lo + k];
    }
  }

  /** The same, last element first, to positions `shift` below. */
  method CopyBackward<T>(src: array<T>, lo: nat, hi: nat, dst: array<T>, shift: nat)
    requires src != dst && shift <= lo <= hi <= src.Length && hi - shift <= dst.Length
    modifies dst
    ensures dst[..lo - shift] == old(dst[..lo - shift])
    ensures dst[lo - shift..hi - shift] == src[lo..hi]
    ensures dst[hi - shift..] == old(dst[hi - shift..])
  {
    var j := hi;
    while j > lo
      invariant lo <= j <= hi
      invariant forall k :: 0 <= k < j - shift ==> dst[k] == old(dst[k])
      invariant forall k :: j <= k < hi ==> dst[k - shift] == src[k]
      invariant forall k :: hi - shift <= k < dst.Length ==> dst[k] == old(dst[k])
    {
      j := j - 1;
      dst[j - shift] := src[j];
    }
    forall k | 0 <= k < hi - lo
      ensures dst[lo - shift..hi - shift][k] == src[lo..hi][k]
    {
      assert dst[(lo + k) - shift] == src[lo + k];
    }
  }

  /** Copies `src[lo..hi]`, last element first, to positions `shift` above. */
  method CopyBackwardUp<T>(src: array<T>, lo: nat, hi: nat, dst: array<T>, shift: nat)
    requires src != dst && lo <= hi <= src.Length && hi + shift <= dst.Length
    modifies dst
    ensures dst[..lo + shift] == old(dst[..lo + shift])
    ensures dst[lo + shift..hi + shift] == src[lo..hi]
    ensures dst[hi + shift..] == old(dst[hi + shift..])
  {
    var j := hi;
    while j > lo
      invariant lo <= j <= hi
      invariant forall k :: 0 <= k < j + shift ==> dst[k] == old(dst[k])
      invariant forall k :: j <= k < hi ==> dst[k + shift] == src[k]
      invariant forall k :: hi + shift <= k < dst.Length ==> dst[k] == old(dst[k])
    {
      j := j - 1;
      dst[j + shift] := src[j];
    }
    forall k | 0 <= k < hi - lo
      ensures dst[lo + shift..hi + shift][k] == src[lo..hi][k]
    {
      assert dst[(lo + k) + shift] == src[lo + k];
    }
  }
}
