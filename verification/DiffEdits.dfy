/** Editing the flat encoding keeps it exact. */
module DiffEdits {
  import opened Keys
  import opened NodeArrays
  import opened DiffScan

  /** Where the new difference goes: in front of the one the new key takes over on its other side. */
  function NewDiffAt(r: nat, larger: bool): nat
    requires larger ==> r > 0
  {
    if larger then r - 1 else r
  }

  /** One comparison is enough: the new key first differs from its neighbour on the side of the probed
      key where it differed from that key, and from the other neighbour where the old neighbours did. */
  lemma InsertAdjacent(keys: seq<Key>, diffs: seq<nat>, q: Key, p: nat, d: nat)
    requires Probes(keys, diffs, q, p, d)
    ensures var r := Rank(diffs, p, d, q[d]);
            && NewDiffAt(r, q[d]) <= |diffs|
            && Adjacent(InsertedAt(keys, r, q), InsertedAt(diffs, NewDiffAt(r, q[d]), d), |q|)
  {
    var r := Rank(diffs, p, d, q[d]);
    RankCorrect(keys, diffs, q, p, d);
    NewNeighbours(keys, diffs, q, p, d, r);
    var x := NewDiffAt(r, q[d]);
    var keys', diffs' := InsertedAt(keys, r, q), InsertedAt(diffs, x, d);
    InsertedUniform(keys, r, q);
    forall i | 0 <= i < |diffs'|
      ensures Less(keys'[i], keys'[i + 1]) && diffs'[i] == Diff(keys'[i], keys'[i + 1])
    {
      InsertedPair(keys, diffs, q, d, r, x, i);
    }
  }

  lemma InsertedUniform(keys: seq<Key>, r: nat, q: Key)
    requires Uniform(keys, |q|) && r <= |keys|
    ensures Uniform(InsertedAt(keys, r, q), |q|)
  {
  }

  /** The neighbours of the new key. */
  lemma NewNeighbours(keys: seq<Key>, diffs: seq<nat>, q: Key, p: nat, d: nat, r: nat)
    requires Probes(keys, diffs, q, p, d) && r == Rank(diffs, p, d, q[d])
    ensures r > 0 ==> Less(keys[r - 1], q) && Diff(keys[r - 1], q) == if q[d] then d else diffs[r - 1]
    ensures r < |keys| ==> Less(q, keys[r]) && Diff(q, keys[r]) == if q[d] then diffs[r - 1] else d
    ensures q[d] ==> r > 0
  {
    if r > 0 { LeftNeighbour(keys, diffs, q, p, d, r); }
    if r < |keys| { RightNeighbour(keys, diffs, q, p, d, r); }
  }

  lemma LeftNeighbour(keys: seq<Key>, diffs: seq<nat>, q: Key, p: nat, d: nat, r: nat)
    requires Probes(keys, diffs, q, p, d) && r == Rank(diffs, p, d, q[d]) && r > 0
    ensures Less(keys[r - 1], q) && Diff(keys[r - 1], q) == if q[d] then d else diffs[r - 1]
  {
    RankAt(keys, diffs, q, p, d, r - 1);
    if q[d] {
      NearKeys(keys, diffs, q, p, d, r - 1);
    } else {
      NearKeys(keys, diffs, q, p, d, r);
      assert Less(keys[r - 1], keys[r - 1 + 1]) && diffs[r - 1] == Diff(keys[r - 1], keys[r - 1 + 1]);
      DiffUnique(keys[r - 1], q, diffs[r - 1]);
    }
  }

  lemma RightNeighbour(keys: seq<Key>, diffs: seq<nat>, q: Key, p: nat, d: nat, r: nat)
    requires Probes(keys, diffs, q, p, d) && r == Rank(diffs, p, d, q[d]) && r < |keys|
    ensures Less(q, keys[r]) && (q[d] ==> r > 0) && Diff(q, keys[r]) == if q[d] then diffs[r - 1] else d
  {
    RankAt(keys, diffs, q, p, d, r);
    if q[d] {
      NearKeys(keys, diffs, q, p, d, r - 1);
      assert Less(keys[r - 1], keys[r - 1 + 1]) && diffs[r - 1] == Diff(keys[r - 1], keys[r - 1 + 1]);
      DiffUnique(q, keys[r], diffs[r - 1]);
    } else {
      NearKeys(keys, diffs, q, p, d, r);
    }
  }

  lemma InsertedPair(keys: seq<Key>, diffs: seq<nat>, q: Key, d: nat, r: nat, x: nat, i: nat)
    requires Adjacent(keys, diffs, |q|) && d < |q| && r <= |keys| && (q[d] ==> r > 0) && x == NewDiffAt(r, q[d]) && x <= |diffs| && i <= |diffs|
    requires r > 0 ==> Less(keys[r - 1], q) && Diff(keys[r - 1], q) == if q[d] then d else diffs[r - 1]
    requires r < |keys| ==> Less(q, keys[r]) && Diff(q, keys[r]) == if q[d] then diffs[r - 1] else d
    ensures var keys', diffs' := InsertedAt(keys, r, q), InsertedAt(diffs, x, d);
            |keys'[i]| == |keys'[i + 1]| && Less(keys'[i], keys'[i + 1]) && diffs'[i] == Diff(keys'[i], keys'[i + 1])
  {
    hide Diff, Less;
    if i + 1 < r {
      assert Less(keys[i], keys[i + 1]);
    } else if i > r {
      assert Less(keys[i - 1], keys[i - 1 + 1]);
    }
  }

  /** What removal leaves of the differences: the ends just go, in the middle the smaller one stays. */
  function DiffsWithout(diffs: seq<nat>, i: nat): (r: seq<nat>)
    requires i <= |diffs| && |diffs| > 0
    ensures |r| == |diffs| - 1
  {
    if i == 0 then diffs[1..]
    else if i == |diffs| then diffs[..|diffs| - 1]
    else RemovedAt(diffs[i - 1 := if diffs[i] < diffs[i - 1] then diffs[i] else diffs[i - 1]], i)
  }

  lemma EdgeRemoved(keys: seq<Key>, diffs: seq<nat>)
    requires |keys| == |diffs| + 1 && |diffs| > 0
    ensures RemovedAt(keys, 0) == keys[1..] && RemovedAt(keys, |keys| - 1) == keys[..|keys| - 1]
    ensures DiffsWithout(diffs, 0) == diffs[1..] && DiffsWithout(diffs, |diffs|) == diffs[..|diffs| - 1]
  {
  }

  lemma InnerRemoved(diffs: seq<nat>, i: nat)
    requires i < |diffs|
    ensures i > 0 ==> DiffsWithout(diffs, i) == RemovedAt(diffs[i - 1 := if diffs[i] < diffs[i - 1] then diffs[i] else diffs[i - 1]], i)
    ensures DiffsWithout(diffs, 0) == RemovedAt(diffs, 0)
  {
  }

  lemma RemoveAdjacent(keys: seq<Key>, diffs: seq<nat>, bits: nat, i: nat)
    requires Adjacent(keys, diffs, bits) && i < |keys| && |diffs| > 0
    ensures Adjacent(RemovedAt(keys, i), DiffsWithout(diffs, i), bits)
  {
    var keys', diffs' := RemovedAt(keys, i), DiffsWithout(diffs, i);
    forall j | 0 <= j < |diffs'|
      ensures |keys'[j]| == |keys'[j + 1]| && Less(keys'[j], keys'[j + 1]) && diffs'[j] == Diff(keys'[j], keys'[j + 1])
    {
      RemovedPair(keys, diffs, bits, i, j);
    }
    assert Uniform(keys', bits);
  }

  lemma RemovedPair(keys: seq<Key>, diffs: seq<nat>, bits: nat, i: nat, j: nat)
    requires Adjacent(keys, diffs, bits) && i < |keys| && j < |diffs| - 1
    ensures var keys', diffs' := RemovedAt(keys, i), DiffsWithout(diffs, i);
            |keys'[j]| == |keys'[j + 1]| && Less(keys'[j], keys'[j + 1]) && diffs'[j] == Diff(keys'[j], keys'[j + 1])
  {
    RemovedValues(keys, diffs, i, j);
    hide RemovedAt, DiffsWithout;
    if j + 1 < i {
      assert Less(keys[j], keys[j + 1]);
    } else if j >= i {
      assert Less(keys[j + 1], keys[j + 1 + 1]);
    } else {
      Triple(keys, diffs, bits, j);
    }
  }

  lemma RemovedValues(keys: seq<Key>, diffs: seq<nat>, i: nat, j: nat)
    requires |keys| == |diffs| + 1 && i < |keys| && j < |diffs| - 1
    ensures var keys', diffs' := RemovedAt(keys, i), DiffsWithout(diffs, i);
            && keys'[j] == keys[if j < i then j else j + 1] && keys'[j + 1] == keys[if j + 1 < i then j + 1 else j + 2]
            && diffs'[j] == if j + 1 < i then diffs[j] else if j >= i then diffs[j + 1]
                            else if diffs[j + 1] < diffs[j] then diffs[j + 1] else diffs[j]
  {
    hide RemovedAt;
    RemovedIndex(keys, i, j);
    RemovedIndex(keys, i, j + 1);
    if 0 < i < |diffs| {
      RemovedIndex(diffs[i - 1 := if diffs[i] < diffs[i - 1] then diffs[i] else diffs[i - 1]], i, j);
    }
  }

  lemma RemovedIndex<T>(s: seq<T>, i: nat, j: nat)
    requires i < |s| && j < |s| - 1
    ensures RemovedAt(s, i)[j] == s[if j < i then j else j + 1]
  {
  }

  lemma Triple(keys: seq<Key>, diffs: seq<nat>, bits: nat, j: nat)
    requires Adjacent(keys, diffs, bits) && j + 2 < |keys|
    ensures |keys[j]| == |keys[j + 2]| && Less(keys[j], keys[j + 2])
    ensures Diff(keys[j], keys[j + 2]) == if diffs[j + 1] < diffs[j] then diffs[j + 1] else diffs[j]
  {
    assert Less(keys[j], keys[j + 1]) && Less(keys[j + 1], keys[j + 1 + 1]);
    LessTransitive(keys[j], keys[j + 1], keys[j + 2]);
  }

  lemma SliceAdjacent(keys: seq<Key>, diffs: seq<nat>, bits: nat, lo: nat, hi: nat)
    requires Adjacent(keys, diffs, bits) && lo < hi <= |keys|
    ensures Adjacent(keys[lo..hi], diffs[lo..hi - 1], bits)
  {
    var keys', diffs' := keys[lo..hi], diffs[lo..hi - 1];
    forall j | 0 <= j < |diffs'|
      ensures |keys'[j]| == |keys'[j + 1]| && Less(keys'[j], keys'[j + 1]) && diffs'[j] == Diff(keys'[j], keys'[j + 1])
    {
      assert Less(keys[lo + j], keys[lo + j + 1]) && diffs[lo + j] == Diff(keys[lo + j], keys[lo + j + 1]);
    }
    assert Uniform(keys', bits);
  }

  lemma ConcatAdjacent(k1: seq<Key>, d1: seq<nat>, k2: seq<Key>, d2: seq<nat>, bits: nat)
    requires Adjacent(k1, d1, bits) && Adjacent(k2, d2, bits) && Less(k1[|k1| - 1], k2[0])
    ensures Adjacent(k1 + k2, d1 + [Diff(k1[|k1| - 1], k2[0])] + d2, bits)
  {
    var keys, diffs := k1 + k2, d1 + [Diff(k1[|k1| - 1], k2[0])] + d2;
    forall j | 0 <= j < |diffs|
      ensures |keys[j]| == |keys[j + 1]| && Less(keys[j], keys[j + 1]) && diffs[j] == Diff(keys[j], keys[j + 1])
    {
      if j < |d1| {
        assert Less(k1[j], k1[j + 1]) && d1[j] == Diff(k1[j], k1[j + 1]);
      } else if j > |d1| {
        var i := j - |k1|;
        assert Less(k2[i], k2[i + 1]) && d2[i] == Diff(k2[i], k2[i + 1]);
      }
    }
    assert Uniform(keys, bits);
  }

  lemma LastBeforeFirst(a: seq<Key>, b: seq<Key>, bits: nat)
    requires |a| > 0 && |b| > 0 && Uniform(a + b, bits) && StrictlySorted(a + b, bits)
    ensures |a[|a| - 1]| == |b[0]| == bits && Less(a[|a| - 1], b[0])
  {
    var i, j := |a| - 1, |a|;
    assert (a + b)[i] == a[|a| - 1] && (a + b)[j] == b[0];
  }
}
