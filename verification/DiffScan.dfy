/** The flat encoding: sorted keys with the first differing bit of every two neighbours. */
module DiffScan {
  import opened Keys
  import opened NodeArrays

  ghost predicate Adjacent(keys: seq<Key>, diffs: seq<nat>, bits: nat)
  {
    && Uniform(keys, bits) && |keys| == |diffs| + 1
    && forall i :: 0 <= i < |diffs| ==> Less(keys[i], keys[i + 1]) && diffs[i] == Diff(keys[i], keys[i + 1])
  }

  /** Two keys first differ at the smallest difference between them. */
  lemma {:induction false} Between(keys: seq<Key>, diffs: seq<nat>, bits: nat, i: nat, j: nat) returns (k: nat)
    requires Adjacent(keys, diffs, bits) && i < j < |keys|
    ensures Less(keys[i], keys[j])
    ensures i <= k < j && diffs[k] == Diff(keys[i], keys[j])
    ensures forall m :: i <= m < j ==> diffs[k] <= diffs[m]
    decreases j - i
  {
    assert Less(keys[j - 1], keys[j - 1 + 1]) && diffs[j - 1] == Diff(keys[j - 1], keys[j - 1 + 1]);
    if j == i + 1 {
      k := i;
    } else {
      k := Between(keys, diffs, bits, i, j - 1);
      LessTransitive(keys[i], keys[j - 1], keys[j]);
      if diffs[j - 1] < diffs[k] { k := j - 1; }
    }
  }

  lemma AdjacentSorted(keys: seq<Key>, diffs: seq<nat>, bits: nat)
    requires Adjacent(keys, diffs, bits)
    ensures StrictlySorted(keys, bits)
    ensures forall i :: 0 <= i < |diffs| ==> diffs[i] < bits
  {
    forall i, j | 0 <= i < j < |keys|
      ensures Less(keys[i], keys[j])
    {
      var _ := Between(keys, diffs, bits, i, j);
    }
    forall i | 0 <= i < |diffs|
      ensures diffs[i] < bits
    {
      assert Less(keys[i], keys[i + 1]);
    }
  }

  /** Between two equal differences there is a smaller one. */
  lemma SmallerBetween(keys: seq<Key>, diffs: seq<nat>, bits: nat, i: nat, j: nat) returns (k: nat)
    requires Adjacent(keys, diffs, bits) && i < j < |diffs| && diffs[i] == diffs[j]
    ensures i < k < j && diffs[k] < diffs[i]
  {
    k := Between(keys, diffs, bits, i + 1, j + 1);
    assert Less(keys[i], keys[i + 1]) && Less(keys[j], keys[j + 1]);
  }

  // ------------------------------------------------------------------------------------
  // The first stage: one scan
  // ------------------------------------------------------------------------------------

  /** The smallest difference passed since the candidate, if the query does not have its bit. */
  datatype Miss = NoMiss | MissAt(bit: nat)

  function Step(diff: nat, q: Key, i: nat, pos: nat, miss: Miss): (nat, Miss)
    requires diff < |q|
  {
    if q[diff] then if miss.NoMiss? || diff <= miss.bit then (i + 1, NoMiss) else (pos, miss)
    else (pos, if miss.NoMiss? || diff < miss.bit then MissAt(diff) else miss)
  }

  ghost predicate Below(diffs: seq<nat>, n: nat)
  {
    forall i :: 0 <= i < |diffs| ==> diffs[i] < n
  }

  /** The state of the scan after the differences from `lo` up to `hi`. */
  ghost function Scan(diffs: seq<nat>, q: Key, lo: nat, hi: nat, pos: nat, miss: Miss): (nat, Miss)
    requires lo <= hi <= |diffs| && Below(diffs, |q|)
    decreases hi - lo
  {
    if lo == hi then (pos, miss)
    else var s := Step(diffs[lo], q, lo, pos, miss); Scan(diffs, q, lo + 1, hi, s.0, s.1)
  }

  /** Where the plain scan of all differences ends. */
  ghost function FirstStage(diffs: seq<nat>, q: Key): nat
    requires Below(diffs, |q|)
  {
    Scan(diffs, q, 0, |diffs|, 0, NoMiss).0
  }

  lemma {:induction false} ScanLast(diffs: seq<nat>, q: Key, lo: nat, hi: nat, pos: nat, miss: Miss)
    requires lo <= hi < |diffs| && Below(diffs, |q|)
    ensures var s := Scan(diffs, q, lo, hi, pos, miss);
            Scan(diffs, q, lo, hi + 1, pos, miss) == Step(diffs[hi], q, hi, s.0, s.1)
    decreases hi - lo
  {
    if lo < hi {
      var s := Step(diffs[lo], q, lo, pos, miss);
      ScanLast(diffs, q, lo + 1, hi, s.0, s.1);
    } else {
      var s := Step(diffs[lo], q, lo, pos, miss);
      assert Scan(diffs, q, lo + 1, hi + 1, s.0, s.1) == s;
    }
  }

  lemma {:induction false} ScanSplit(diffs: seq<nat>, q: Key, lo: nat, mid: nat, hi: nat, pos: nat, miss: Miss)
    requires lo <= mid <= hi <= |diffs| && Below(diffs, |q|)
    ensures var s := Scan(diffs, q, lo, mid, pos, miss);
            Scan(diffs, q, lo, hi, pos, miss) == Scan(diffs, q, mid, hi, s.0, s.1)
    decreases mid - lo
  {
    if lo < mid {
      var s := Step(diffs[lo], q, lo, pos, miss);
      ScanSplit(diffs, q, lo + 1, mid, hi, s.0, s.1);
    }
  }

  /** After `i` differences the candidate shares most with the query among the keys up to `i`; if it is
      not the last of them, the miss is where it first differs from the last, and the query does not
      go there. */
  ghost predicate Best(keys: seq<Key>, diffs: seq<nat>, q: Key, i: nat, pos: nat, miss: Miss)
    requires Adjacent(keys, diffs, |q|) && i < |keys|
  {
    && pos <= i
    && (pos == i <==> miss.NoMiss?)
    && (pos < i ==> miss.MissAt? && miss.bit == Diff(keys[pos], keys[i]) && miss.bit < |q| && !q[miss.bit])
    && (forall j :: 0 <= j <= i ==> Diff(q, keys[j]) <= Diff(q, keys[pos]))
  }

  lemma BestStep(keys: seq<Key>, diffs: seq<nat>, q: Key, i: nat, pos: nat, miss: Miss)
    requires Adjacent(keys, diffs, |q|) && i < |diffs| && diffs[i] < |q| && Best(keys, diffs, q, i, pos, miss)
    ensures var s := Step(diffs[i], q, i, pos, miss);
            Best(keys, diffs, q, i + 1, s.0, s.1)
  {
    var e := NextDiff(keys, diffs, q, i, pos, miss);
    StepCases(diffs[i], q, i, pos, miss, e);
    if q[e] {
      TakesLater(keys[pos], keys[i + 1], q);
      BestTaken(keys, diffs, q, i, pos, miss);
    } else {
      KeepsEarlier(keys[pos], keys[i + 1], q);
      BestKept(keys, diffs, q, i, pos, miss, e);
    }
  }

  lemma StepCases(diff: nat, q: Key, i: nat, pos: nat, miss: Miss, e: nat)
    requires diff < |q| && e < |q| && (pos == i <==> miss.NoMiss?) && pos <= i && (miss.MissAt? ==> miss.bit < |q| && !q[miss.bit])
    requires e == if pos < i && miss.bit < diff then miss.bit else diff
    ensures Step(diff, q, i, pos, miss) == if q[e] then (i + 1, NoMiss) else (pos, MissAt(e))
  {
  }

  lemma BestTaken(keys: seq<Key>, diffs: seq<nat>, q: Key, i: nat, pos: nat, miss: Miss)
    requires Adjacent(keys, diffs, |q|) && i + 1 < |keys| && Best(keys, diffs, q, i, pos, miss)
    requires Diff(q, keys[pos]) <= Diff(q, keys[i + 1])
    ensures Best(keys, diffs, q, i + 1, i + 1, NoMiss)
  {
    hide Diff, Less;
    assert Diff(q, keys[pos]) <= Diff(q, keys[i + 1]);
  }

  lemma BestKept(keys: seq<Key>, diffs: seq<nat>, q: Key, i: nat, pos: nat, miss: Miss, e: nat)
    requires Adjacent(keys, diffs, |q|) && i + 1 < |keys| && Best(keys, diffs, q, i, pos, miss)
    requires Diff(q, keys[i + 1]) <= Diff(q, keys[pos]) && e == Diff(keys[pos], keys[i + 1]) && e < |q| && !q[e]
    ensures Best(keys, diffs, q, i + 1, pos, MissAt(e))
  {
    hide Diff, Less;
  }

  /** The candidate and the next key differ at the miss or at the next difference, the smaller one. */
  lemma NextDiff(keys: seq<Key>, diffs: seq<nat>, q: Key, i: nat, pos: nat, miss: Miss) returns (e: nat)
    requires Adjacent(keys, diffs, |q|) && i < |diffs| && diffs[i] < |q| && Best(keys, diffs, q, i, pos, miss)
    ensures |keys[pos]| == |keys[i + 1]| == |q| && Less(keys[pos], keys[i + 1]) && e == Diff(keys[pos], keys[i + 1])
    ensures e == if pos < i && miss.bit < diffs[i] then miss.bit else diffs[i]
    ensures e < |q|
  {
    e := Diff(keys[pos], keys[i + 1]);
    assert Less(keys[i], keys[i + 1]) && diffs[i] == Diff(keys[i], keys[i + 1]);
    if pos < i {
      var _ := Between(keys, diffs, |q|, pos, i);
      LessTransitive(keys[pos], keys[i], keys[i + 1]);
    }
  }

  /** Of two keys the later one shares at least as much with a query that has its bit. */
  lemma TakesLater(a: Key, b: Key, q: Key)
    requires |a| == |b| == |q| && Less(a, b) && q[Diff(a, b)]
    ensures Diff(q, a) <= Diff(q, b)
  {
  }

  lemma KeepsEarlier(a: Key, b: Key, q: Key)
    requires |a| == |b| == |q| && Less(a, b) && !q[Diff(a, b)]
    ensures Diff(q, b) <= Diff(q, a)
  {
  }

  lemma {:induction false} ScanBest(keys: seq<Key>, diffs: seq<nat>, q: Key, i: nat)
    requires Adjacent(keys, diffs, |q|) && Below(diffs, |q|) && i < |keys|
    ensures var s := Scan(diffs, q, 0, i, 0, NoMiss);
            Best(keys, diffs, q, i, s.0, s.1)
  {
    if i > 0 {
      hide Best, Adjacent, Step;
      ScanBest(keys, diffs, q, i - 1);
      ScanLast(diffs, q, 0, i - 1, 0, NoMiss);
      var s := Scan(diffs, q, 0, i - 1, 0, NoMiss);
      BestStep(keys, diffs, q, i - 1, s.0, s.1);
    }
  }

  /** The scan ends on a key that shares the longest prefix with the query; so a stored query is
      found, and nothing else is. */
  lemma FirstStageMaximal(keys: seq<Key>, diffs: seq<nat>, q: Key)
    requires Adjacent(keys, diffs, |q|) && Below(diffs, |q|)
    ensures FirstStage(diffs, q) < |keys|
    ensures forall j :: 0 <= j < |keys| ==> Diff(q, keys[j]) <= Diff(q, keys[FirstStage(diffs, q)])
    ensures q in keys <==> keys[FirstStage(diffs, q)] == q
  {
    ScanBest(keys, diffs, q, |diffs|);
  }

  // ------------------------------------------------------------------------------------
  // The second stage: one scan to the neighbouring position
  // ------------------------------------------------------------------------------------

  /** The first position from `p` on whose difference is below `d`. */
  ghost function RightEnd(diffs: seq<nat>, p: nat, d: nat): (i: nat)
    requires p <= |diffs|
    ensures p <= i <= |diffs|
    ensures forall j :: p <= j < i ==> d <= diffs[j]
    ensures i < |diffs| ==> diffs[i] < d
    decreases |diffs| - p
  {
    if p == |diffs| || diffs[p] < d then p else RightEnd(diffs, p + 1, d)
  }

  /** The number of positions up to the last one before `p` whose difference is below `d`. */
  ghost function LeftEnd(diffs: seq<nat>, p: nat, d: nat): (i: nat)
    requires p <= |diffs|
    ensures i <= p
    ensures forall j :: i <= j < p ==> d <= diffs[j]
    ensures i > 0 ==> diffs[i - 1] < d
  {
    if p == 0 || diffs[p - 1] < d then p else LeftEnd(diffs, p - 1, d)
  }

  lemma RightEndIs(diffs: seq<nat>, p: nat, d: nat, i: nat)
    requires p <= i <= |diffs| && (forall j :: p <= j < i ==> d <= diffs[j]) && (i < |diffs| ==> diffs[i] < d)
    ensures RightEnd(diffs, p, d) == i
  {
  }

  lemma LeftEndIs(diffs: seq<nat>, p: nat, d: nat, i: nat)
    requires i <= p <= |diffs| && (forall j :: i <= j < p ==> d <= diffs[j]) && (i > 0 ==> diffs[i - 1] < d)
    ensures LeftEnd(diffs, p, d) == i
  {
  }

  /** The rank of a query that first differs at `d` from a key sharing most with it, at `p`. */
  ghost function Rank(diffs: seq<nat>, p: nat, d: nat, larger: bool): (r: nat)
    requires p <= |diffs|
    ensures r <= |diffs| + 1
  {
    if larger then RightEnd(diffs, p, d) + 1 else LeftEnd(diffs, p, d)
  }

  /** A key of the node shares most with the query, and first differs from it at `d`. */
  ghost predicate Probes(keys: seq<Key>, diffs: seq<nat>, q: Key, p: nat, d: nat)
  {
    && Adjacent(keys, diffs, |q|) && p < |keys|
    && d == Diff(q, keys[p]) && d < |q|
    && (forall j :: 0 <= j < |keys| ==> Diff(q, keys[j]) <= d)
  }

  lemma ProbeInside(keys: seq<Key>, diffs: seq<nat>, q: Key, p: nat, d: nat)
    requires Probes(keys, diffs, q, p, d)
    ensures p < |keys| == |diffs| + 1 && d < |q|
  {
  }

  /** Keys further away than a difference below `d` are on the side of the one at `p`. */
  lemma FarKeys(keys: seq<Key>, diffs: seq<nat>, q: Key, p: nat, d: nat, j: nat)
    requires Probes(keys, diffs, q, p, d) && j < |keys|
    requires p < j ==> exists k :: p <= k < j && diffs[k] < d
    requires j < p ==> exists k :: j <= k < p && diffs[k] < d
    ensures p < j ==> Less(q, keys[j])
    ensures j < p ==> Less(keys[j], q)
  {
    if p < j {
      var m := Between(keys, diffs, |q|, p, j);
      DiffUnique(q, keys[j], diffs[m]);
    } else if j < p {
      var m := Between(keys, diffs, |q|, j, p);
      DiffUnique(keys[j], q, diffs[m]);
    }
  }

  /** Keys nearer than that first differ from the query at `d` too, in the same way. */
  lemma NearKeys(keys: seq<Key>, diffs: seq<nat>, q: Key, p: nat, d: nat, j: nat)
    requires Probes(keys, diffs, q, p, d) && j < |keys|
    requires forall k :: p <= k < j ==> d <= diffs[k]
    requires forall k :: j <= k < p ==> d <= diffs[k]
    ensures Diff(q, keys[j]) == Diff(keys[j], q) == d && keys[j][d] != q[d]
  {
    if p < j {
      var m := Between(keys, diffs, |q|, p, j);
      assert d <= Diff(keys[p], keys[j]);
    } else if j < p {
      var m := Between(keys, diffs, |q|, j, p);
      assert d <= Diff(keys[j], keys[p]);
    }
    assert forall i :: 0 <= i < d ==> keys[j][i] == q[i];
    DiffAtMost(q, keys[j], d);
  }

  lemma DiffAtMost(q: Key, k: Key, d: nat)
    requires |q| == |k| && d < |q| && (forall i :: 0 <= i < d ==> k[i] == q[i]) && Diff(q, k) <= d
    ensures Diff(q, k) == Diff(k, q) == d && k[d] != q[d]
  {
    DiffSymmetric(q, k);
  }

  /** The second stage finds the rank of the query. */
  lemma RankCorrect(keys: seq<Key>, diffs: seq<nat>, q: Key, p: nat, d: nat)
    requires Probes(keys, diffs, q, p, d)
    ensures IsRank(keys, |q|, q, Rank(diffs, p, d, q[d])) && q !in keys
  {
    var r := Rank(diffs, p, d, q[d]);
    forall j | 0 <= j < |keys|
      ensures j < r ==> Less(keys[j], q)
      ensures r <= j ==> Less(q, keys[j])
    {
      RankAt(keys, diffs, q, p, d, j);
    }
    forall j | 0 <= j < r
      ensures !Less(q, keys[j])
    {
      LessTotal(q, keys[j]);
    }
  }

  lemma RankAt(keys: seq<Key>, diffs: seq<nat>, q: Key, p: nat, d: nat, j: nat)
    requires Probes(keys, diffs, q, p, d) && j < |keys|
    ensures j < Rank(diffs, p, d, q[d]) ==> Less(keys[j], q)
    ensures Rank(diffs, p, d, q[d]) <= j ==> Less(q, keys[j])
  {
    if (forall k :: p <= k < j ==> d <= diffs[k]) && (forall k :: j <= k < p ==> d <= diffs[k]) {
      NearKeys(keys, diffs, q, p, d, j);
    } else {
      FarKeys(keys, diffs, q, p, d, j);
    }
  }
}
