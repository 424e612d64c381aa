/** `SortedSmallSet`: a sorted run inside a fixed array, filled by insertion and drained from the
front.  Slots freed at the front are not reused. */
module SortedSmallSet {

  /** The first position whose element is above `v`, as `std::upper_bound` finds it. */
  function UpperBoundBy<T>(s: seq<T>, v: T, less: (T, T) -> bool): (i: nat)
    ensures i <= |s|
    ensures forall j :: 0 <= j < i ==> !less(v, s[j])
    ensures i < |s| ==> less(v, s[i])
  {
    if s == [] || less(v, s[0]) then 0 else 1 + UpperBoundBy(s[1..], v, less)
  }

  /** The first position whose element is not below `v`. */
  function LowerBoundBy<T>(s: seq<T>, v: T, less: (T, T) -> bool): (i: nat)
    ensures i <= |s|
    ensures forall j :: 0 <= j < i ==> less(s[j], v)
    ensures i < |s| ==> !less(s[i], v)
  {
    if s == [] || !less(s[0], v) then 0 else 1 + LowerBoundBy(s[1..], v, less)
  }

  function InsertBefore<T>(s: seq<T>, i: nat, v: T): (r: seq<T>)
    requires i <= |s|
  {
    s[..i] + [v] + s[i..]
  }

  class SortedSmallSet<T(0)> {
    const data: array<T>
    const less: (T, T) -> bool
    const same: (T, T) -> bool
    var startP: nat
    var endP: nat

    ghost predicate Valid()
      reads this
    {
      startP <= endP <= data.Length
    }

    /** The elements still in the set, in order. */
    ghost function Elements(): (s: seq<T>)
      requires Valid()
      reads this, data
    {
      data[startP..endP]
    }

    constructor (capacity: nat, less: (T, T) -> bool, same: (T, T) -> bool)
      ensures Valid() && fresh(data) && Elements() == []
      ensures this.less == less && this.same == same && data.Length == capacity && endP == 0
    {
      data := new T[capacity];
      this.less, this.same := less, same;
      startP, endP := 0, 0;
    }

    method ShiftAndStore(i: nat, v: T)
      requires Valid() && startP <= i <= endP < data.Length
      modifies this`endP, data
      ensures Valid() && endP == old(endP) + 1
      ensures Elements() == InsertBefore(old(Elements()), i - startP, v)
    {
      var j := endP;
      while j > i
        invariant i <= j <= endP == old(endP)
        invariant forall k :: 0 <= k < j ==> data[k] == old(data[k])
        invariant forall k :: j < k <= endP ==> data[k] == old(data[k - 1])
      {
        data[j] := data[j - 1];
        j := j - 1;
      }
      data[i] := v;
      endP := endP + 1;
      Shifted(data[..], old(data[..]), old(startP), i, old(endP), v);
    }

    /** Inserts before the first element that is not below `v`, unless that element is the same. */
    method Insert(v: T)
      requires Valid() && endP < data.Length
      modifies this`endP, data
      ensures Valid() && old(endP) <= endP <= old(endP) + 1
      ensures var s, i := old(Elements()), LowerBoundBy(old(Elements()), v, less);
              Elements() == if i < |s| && same(s[i], v) then s else InsertBefore(s, i, v)
    {
      hide LowerBoundBy, InsertBefore;
      ghost var s := Elements();
      var it := startP;
      while it < endP && less(data[it], v)
        invariant startP <= it <= endP
        invariant forall k :: startP <= k < it ==> less(data[k], v)
      {
        it := it + 1;
      }
      LowerBoundIs(s, v, less, it - startP);
      if it < endP && same(data[it], v) {
        return;
      }
      ShiftAndStore(it, v);
    }

    /** Inserts before the first element above `v`. */
    method InsertNoDedup(v: T)
      requires Valid() && endP < data.Length
      modifies this`endP, data
      ensures Valid() && endP == old(endP) + 1
      ensures Elements() == InsertBefore(old(Elements()), UpperBoundBy(old(Elements()), v, less), v)
    {
      var i := UpperBoundBy(data[startP..endP], v, less);
      ShiftAndStore(startP + i, v);
    }

    method GetFront() returns (v: T)
      requires Valid() && Elements() != []
      ensures v == Elements()[0]
    {
      v := data[startP];
    }

    method PopFront() returns (v: T)
      requires Valid() && Elements() != []
      modifies this`startP
      ensures Valid()
      ensures v == old(Elements())[0] && Elements() == old(Elements())[1..]
    {
      v := data[startP];
      startP := startP + 1;
    }
  }

  lemma Shifted<T>(d: seq<T>, d0: seq<T>, lo: nat, i: nat, hi: nat, v: T)
    requires lo <= i <= hi < |d| == |d0| && d[i] == v
    requires forall k :: 0 <= k < i ==> d[k] == d0[k]
    requires forall k :: i < k <= hi ==> d[k] == d0[k - 1]
    ensures d[lo..hi + 1] == InsertBefore(d0[lo..hi], i - lo, v)
  {
  }

  lemma LowerBoundIs<T>(s: seq<T>, v: T, less: (T, T) -> bool, i: nat)
    requires i <= |s| && (forall j :: 0 <= j < i ==> less(s[j], v)) && (i < |s| ==> !less(s[i], v))
    ensures LowerBoundBy(s, v, less) == i
  {
  }

  lemma Regroup<T>(a: seq<T>, b: seq<T>, c: seq<T>)
    ensures a + (b + c) == a + b + c
    ensures b == [] ==> a + b == a
  {
  }

  lemma Appended<T>(a: seq<T>, b: seq<T>, c: seq<T>)
    requires a <= b <= c
    ensures a <= c && c[|a|..] == b[|a|..] + c[|b|..]
  {
  }

  lemma SliceOfSlice<T>(s: seq<T>, i: nat, j: nat, k: nat)
    requires i <= j <= k <= |s|
    ensures s[i..k][..j - i] == s[i..j] && s[i..k][j - i..] == s[j..k]
  {
  }
}
