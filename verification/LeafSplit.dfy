/** Choosing where to split a leaf, and what the two halves stand for. */
module LeafSplit {
  import opened BwTypes
  import opened LeafChain

  const LEAF_NODE_SIZE_UPPER_THRESHOLD := 128
  const LEAF_NODE_SIZE_LOWER_THRESHOLD := 32

  /** The first position whose key is above `k`. */
  function UpperBound(items: seq<Item>, k: int): (i: nat)
    ensures i <= |items|
    ensures forall j :: 0 <= j < i ==> items[j].key <= k
    ensures i < |items| ==> k < items[i].key
  {
    if items == [] || k < items[0].key then 0 else 1 + UpperBound(items[1..], k)
  }

  lemma RunStart(items: seq<Item>, k: int, lo: nat)
    requires SortedByKey(items) && lo < |items| && items[lo].key == k && (lo > 0 ==> items[lo - 1].key != k)
    ensures LowerBound(items, k) == lo
    ensures lo > 0 ==> SplitsLeaf(items, k, |items| - lo)
  {
    assert lo > 0 ==> items[lo - 1].key < k;
  }

  lemma RunEnd(items: seq<Item>, k: int, hi: nat)
    requires SortedByKey(items) && 0 < hi <= |items| && items[hi - 1].key == k && (hi < |items| ==> items[hi].key != k)
    ensures UpperBound(items, k) == hi
    ensures hi < |items| ==> SplitsLeaf(items, items[hi].key, |items| - hi)
  {
    assert hi < |items| ==> k < items[hi].key;
  }

  /** Inside a run of one key a leaf cannot be split. */
  lemma WholeRun(items: seq<Item>, k: int, q: nat)
    requires SortedByKey(items) && LowerBound(items, k) < q < UpperBound(items, k)
    ensures !SplitsLeaf(items, items[q].key, |items| - q)
  {
  }

  /** The run of the central key is never cut: the leaf is split in front of it if more than the lower
      threshold is left there, else behind it if more than the threshold is left there, else not. */
  method FindSplitPoint(items: seq<Item>) returns (p: int)
    requires SortedByKey(items) && |items| >= 4
    ensures var k := items[|items| / 2].key;
            var lo, hi := LowerBound(items, k), UpperBound(items, k);
            p == if lo > LEAF_NODE_SIZE_LOWER_THRESHOLD then lo
                 else if |items| - hi > LEAF_NODE_SIZE_LOWER_THRESHOLD then hi
                 else -1
    ensures p != -1 ==> 0 < p < |items| && SplitsLeaf(items, items[p].key, |items| - p)
    ensures p == -1 ==> forall q :: LEAF_NODE_SIZE_LOWER_THRESHOLD < q < |items| - LEAF_NODE_SIZE_LOWER_THRESHOLD ==>
      !SplitsLeaf(items, items[q].key, |items| - q)
  {
    hide SortedByKey, SplitsLeaf, LowerBound, UpperBound;
    var central := |items| / 2;
    var k := items[central].key;
    var it := central - 1;
    while it != 0 && items[it].key == k
      invariant 0 <= it < central
      invariant forall j :: it < j <= central ==> items[j].key == k
    {
      it := it - 1;
    }
    it := it + 1;
    RunStart(items, k, if it == 1 && items[0].key == k then 0 else it);
    if it > LEAF_NODE_SIZE_LOWER_THRESHOLD {
      return it;
    }
    it := central + 1;
    while it != |items| && items[it].key == k
      invariant central < it <= |items|
      invariant forall j :: central <= j < it ==> items[j].key == k
      decreases |items| - it
    {
      it := it + 1;
    }
    RunEnd(items, k, it);
    if |items| - it > LEAF_NODE_SIZE_LOWER_THRESHOLD {
      return it;
    }
    forall q | LowerBound(items, k) < q < UpperBound(items, k)
      ensures !SplitsLeaf(items, items[q].key, |items| - q)
    {
      WholeRun(items, k, q);
    }
    return -1;
  }

  /** `GetSplitSibling`: the upper part of the leaf, or nothing if there is no good split point. */
  method GetSplitSibling(leaf: Chain) returns (p: int, sibling: Chain)
    requires WellFormed(leaf) && leaf.Leaf? && |leaf.items| >= 4
    ensures var items := leaf.items; var k := items[|items| / 2].key;
            p == if LowerBound(items, k) > LEAF_NODE_SIZE_LOWER_THRESHOLD then LowerBound(items, k)
                 else if |items| - UpperBound(items, k) > LEAF_NODE_SIZE_LOWER_THRESHOLD then UpperBound(items, k)
                 else -1
    ensures p == -1 ==> forall q :: LEAF_NODE_SIZE_LOWER_THRESHOLD < q < |leaf.items| - LEAF_NODE_SIZE_LOWER_THRESHOLD ==>
      !SplitsLeaf(leaf.items, leaf.items[q].key, |leaf.items| - q)
    ensures p != -1 ==>
      && 0 < p < |leaf.items| && SplitsLeaf(leaf.items, leaf.items[p].key, |leaf.items| - p)
      && sibling == Leaf(LowAt(leaf.items[p].key), leaf.high, leaf.items[p..])
  {
    p := FindSplitPoint(leaf.items);
    sibling := leaf;
    if p != -1 {
      sibling := Leaf(LowAt(leaf.items[p].key), leaf.high, leaf.items[p..]);
    }
  }

  /** A split delta on a leaf and its sibling divide range, items and count of the leaf between them. */
  lemma SplitDivides(leaf: Chain, k: int, n: int, id: NodeId)
    requires WellFormed(leaf) && leaf.Leaf? && SplitsLeaf(leaf.items, k, n)
    ensures var left, right := Split(k, id, n, leaf), Leaf(LowAt(k), leaf.high, leaf.items[|leaf.items| - n..]);
            && WellFormed(left) && WellFormed(right)
            && LowOf(left) == leaf.low && HighOf(left) == HighAt(k, id) && HighOf(right) == leaf.high
            && InRange(k, leaf.low, leaf.high)
            && Replay(left) + Replay(right) == Replay(leaf) && Replay(left) !! Replay(right)
            && ItemCount(left) + ItemCount(right) == ItemCount(leaf)
  {
    var p := |leaf.items| - n;
    assert InRange(leaf.items[p].key, leaf.low, leaf.high);
    SplitItems(leaf.items, k, p);
    RightFormed(leaf, k, p);
    SplitReplay(leaf, k, n, id);
  }

  lemma RightFormed(leaf: Chain, k: int, p: nat)
    requires WellFormed(leaf) && leaf.Leaf? && 0 < p < |leaf.items| && leaf.items[p].key == k
    ensures WellFormed(Leaf(LowAt(k), leaf.high, leaf.items[p..]))
  {
    var r := leaf.items[p..];
    assert forall i :: 0 <= i < |r| ==> r[i] == leaf.items[p + i];
  }

  lemma SplitReplay(leaf: Chain, k: int, n: int, id: NodeId)
    requires leaf.Leaf? && SortedByKey(leaf.items) && SplitsLeaf(leaf.items, k, n)
    ensures var left, right := Split(k, id, n, leaf), Leaf(LowAt(k), leaf.high, leaf.items[|leaf.items| - n..]);
            Replay(left) + Replay(right) == Replay(leaf) && Replay(left) !! Replay(right)
  {
    SplitItems(leaf.items, k, |leaf.items| - n);
    hide SortedByKey, SplitsLeaf;
  }

  /** Undone by a merge: the halves merged again stand for the items of the leaf. */
  lemma MergeUndoesSplit(leaf: Chain, k: int, n: int, id: NodeId)
    requires WellFormed(leaf) && leaf.Leaf? && SplitsLeaf(leaf.items, k, n)
    ensures var left, right := Split(k, id, n, leaf), Leaf(LowAt(k), leaf.high, leaf.items[|leaf.items| - n..]);
            var merged := Merge(k, id, right, left);
            && WellFormed(merged) && Replay(merged) == Replay(leaf)
            && LowOf(merged) == leaf.low && HighOf(merged) == leaf.high && ItemCount(merged) == ItemCount(leaf)
  {
    SplitDivides(leaf, k, n, id);
    hide SplitsLeaf, LeafWellFormed;
  }
}
