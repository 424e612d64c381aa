/** The small tree of range minima over the differences of a flat node, and why searching through it
is the same as scanning.

With two levels the tree has three slots: the position of the smallest difference, and the positions
of the smallest ones in front of it and behind it. */
module RangeMinima {
  import opened Keys
  import opened DiffScan

  const TREE_LEVELS := 2
  const TREE_SIZE := 3
  const END_TREE: nat := 255

  /** The position of the one smallest difference of the range. */
  ghost predicate IsArgMin(diffs: seq<nat>, lo: nat, hi: nat, t: nat)
    requires hi <= |diffs|
  {
    lo <= t < hi && forall j :: lo <= j < hi && j != t ==> diffs[t] < diffs[j]
  }

  /** What a slot for the range holds: the position of its minimum, or the end marker if it is empty. */
  ghost predicate Slot(diffs: seq<nat>, lo: nat, hi: nat, t: nat)
    requires hi <= |diffs|
  {
    if lo < hi then IsArgMin(diffs, lo, hi, t) else t == END_TREE
  }

  ghost predicate TreeOf(diffs: seq<nat>, tree: seq<nat>)
  {
    && |tree| == TREE_SIZE && |diffs| < END_TREE
    && Slot(diffs, 0, |diffs|, tree[0])
    && (if diffs == [] then tree[1] == END_TREE && tree[2] == END_TREE
        else Slot(diffs, 0, tree[0], tree[1]) && Slot(diffs, tree[0] + 1, |diffs|, tree[2]))
  }

  /** In the differences of sorted keys a minimum of a range is the only one. */
  lemma MinIsUnique(keys: seq<Key>, diffs: seq<nat>, bits: nat, lo: nat, hi: nat, t: nat)
    requires Adjacent(keys, diffs, bits) && lo <= t < hi <= |diffs|
    requires forall j :: lo <= j < hi ==> diffs[t] <= diffs[j]
    ensures IsArgMin(diffs, lo, hi, t)
  {
    forall j | lo <= j < hi && j != t
      ensures diffs[t] < diffs[j]
    {
      if t < j && diffs[t] == diffs[j] {
        var k := SmallerBetween(keys, diffs, bits, t, j);
      } else if j < t && diffs[t] == diffs[j] {
        var k := SmallerBetween(keys, diffs, bits, j, t);
      }
    }
  }

  // ------------------------------------------------------------------------------------
  // The first stage through the tree
  // ------------------------------------------------------------------------------------

  /** The miss is one of the differences passed. */
  lemma {:induction false} MissFrom(diffs: seq<nat>, q: Key, lo: nat, hi: nat, pos: nat, b: nat)
    requires lo <= hi <= |diffs| && Below(diffs, |q|)
    requires forall j :: lo <= j < hi ==> b < diffs[j]
    ensures Scan(diffs, q, lo, hi, pos, NoMiss).1.MissAt? ==> b < Scan(diffs, q, lo, hi, pos, NoMiss).1.bit
    decreases hi - lo
  {
    if lo < hi {
      ScanLast(diffs, q, lo, hi - 1, pos, NoMiss);
      MissFrom(diffs, q, lo, hi - 1, pos, b);
    }
  }

  /** Behind a smaller miss nothing changes. */
  lemma {:induction false} ScanStuck(diffs: seq<nat>, q: Key, lo: nat, hi: nat, pos: nat, b: nat)
    requires lo <= hi <= |diffs| && Below(diffs, |q|)
    requires forall j :: lo <= j < hi ==> b < diffs[j]
    ensures Scan(diffs, q, lo, hi, pos, MissAt(b)) == (pos, MissAt(b))
    decreases hi - lo
  {
    if lo < hi {
      ScanStuck(diffs, q, lo + 1, hi, pos, b);
    }
  }

  /** The bit of the query at the smallest difference decides which side of it has to be scanned. */
  lemma ScanNarrows(diffs: seq<nat>, q: Key, lo: nat, hi: nat, m: nat, pos: nat)
    requires hi <= |diffs| && Below(diffs, |q|) && IsArgMin(diffs, lo, hi, m)
    ensures Scan(diffs, q, lo, hi, pos, NoMiss).0
            == if q[diffs[m]] then Scan(diffs, q, m + 1, hi, m + 1, NoMiss).0 else Scan(diffs, q, lo, m, pos, NoMiss).0
  {
    ScanSplit(diffs, q, lo, m, hi, pos, NoMiss);
    MissFrom(diffs, q, lo, m, pos, diffs[m]);
    var s := Scan(diffs, q, lo, m, pos, NoMiss);
    var t := Step(diffs[m], q, m, s.0, s.1);
    assert Scan(diffs, q, m, hi, s.0, s.1) == Scan(diffs, q, m + 1, hi, t.0, t.1);
    if !q[diffs[m]] { ScanStuck(diffs, q, m + 1, hi, s.0, diffs[m]); }
  }

  lemma ScanEmpty(diffs: seq<nat>, q: Key, lo: nat, pos: nat)
    requires lo <= |diffs| && Below(diffs, |q|)
    ensures Scan(diffs, q, lo, lo, pos, NoMiss) == (pos, NoMiss)
  {
  }

  /** The candidate stays where it was or comes into the scanned range. */
  lemma {:induction false} ScanStays(diffs: seq<nat>, q: Key, lo: nat, hi: nat, pos: nat, miss: Miss)
    requires lo <= hi <= |diffs| && Below(diffs, |q|)
    ensures var p := Scan(diffs, q, lo, hi, pos, miss).0; p == pos || lo < p <= hi
    decreases hi - lo
  {
    if lo < hi {
      var s := Step(diffs[lo], q, lo, pos, miss);
      ScanStays(diffs, q, lo + 1, hi, s.0, s.1);
    }
  }

  // ------------------------------------------------------------------------------------
  // The second stage through the tree
  // ------------------------------------------------------------------------------------

  /** The first difference from a probed key is not the smallest one of a range around it. */
  lemma ProbeNotMin(keys: seq<Key>, diffs: seq<nat>, q: Key, p: nat, d: nat, lo: nat, hi: nat, m: nat)
    requires Probes(keys, diffs, q, p, d) && lo <= p <= hi <= |diffs| && IsArgMin(diffs, lo, hi, m)
    ensures d != diffs[m]
  {
    var k := if p <= m then m + 1 else m;
    assert Less(keys[m], keys[m + 1]) && diffs[m] == Diff(keys[m], keys[m + 1]);
    if p <= m {
      var j := Between(keys, diffs, |q|, p, m + 1);
      assert diffs[j] == diffs[m];
    } else {
      var j := Between(keys, diffs, |q|, m, p);
      assert diffs[j] == diffs[m];
    }
    SharesBranch(keys[p], keys[k], q, d, diffs[m]);
  }

  /** If the query left a key just where another one branches off it, it would share more with that one. */
  lemma SharesBranch(a: Key, b: Key, q: Key, d: nat, e: nat)
    requires |a| == |b| == |q| && d == Diff(q, a) && d < |q| && e < |q|
    requires (forall i :: 0 <= i < e ==> a[i] == b[i]) && a[e] != b[e] && Diff(q, b) <= d
    ensures d != e
  {
  }

  /** Where a search has ended in the tree: `last` is the slot whose range the probed key belongs to;
      `inTree` if the new difference would be the smallest of that range, `len` 1 if even of all. */
  ghost predicate Landed(diffs: seq<nat>, tree: seq<nat>, p: nat, d: nat, last: nat, len: nat, inTree: bool)
    requires TreeOf(diffs, tree)
  {
    if len == 1 then inTree && last == 0 && forall j :: 0 <= j < |diffs| ==> d < diffs[j]
    else
      && len == 2 && diffs != [] && diffs[tree[0]] < d
      && (last == 1 || last == 2) && (last == 1 ==> p <= tree[0]) && (last == 2 ==> tree[0] < p <= |diffs|)
      && (inTree <==> tree[last] == END_TREE || d < diffs[tree[last]])
      && (!inTree ==> diffs[tree[last]] < d)
  }

  /** The new difference goes into the range of the slot. */
  lemma LandedRange(diffs: seq<nat>, tree: seq<nat>, p: nat, d: nat, last: nat, len: nat, inTree: bool, larger: bool)
    requires TreeOf(diffs, tree) && Landed(diffs, tree, p, d, last, len, inTree) && p <= |diffs|
    ensures var r := Rank(diffs, p, d, larger);
            var x := if larger then r - 1 else r;
            && 0 <= x <= |diffs|
            && (len == 1 ==> x == if larger then |diffs| else 0)
            && (len == 2 && last == 1 ==> x <= tree[0])
            && (len == 2 && last == 2 ==> tree[0] < x)
  {
  }
}
