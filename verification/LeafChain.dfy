/** Leaf delta chains: what they store, and the lookup that decides insertion and deletion. */
module LeafChain {
  import opened BwTypes

  /** A leaf node with the deltas on top of it.  Insert and delete deltas carry the position of
      their item in the leaf below (`index`), and whether the item is there (`exists`). */
  datatype Chain =
    | Leaf(low: Low, high: High, items: seq<Item>)
    | Insert(item: Item, index: nat, exists_: bool, child: Chain)
    | Delete(item: Item, index: nat, exists_: bool, child: Chain)
    | Split(splitKey: int, sibling: NodeId, siblingCount: int, child: Chain)
    | Merge(mergeKey: int, deletedId: NodeId, right: Chain, child: Chain)
    | Remove(removedId: NodeId, child: Chain)

  // The metadata every node copies or computes from its child when it is created.

  function LowOf(c: Chain): Low
  {
    if c.Leaf? then c.low else LowOf(c.child)
  }

  function HighOf(c: Chain): High
  {
    match c
    case Leaf(_, high, _) => high
    case Split(k, sibling, _, _) => HighAt(k, sibling)
    case Merge(_, _, right, _) => HighOf(right)
    case _ => HighOf(c.child)
  }

  function ItemCount(c: Chain): int
  {
    match c
    case Leaf(_, _, items) => |items|
    case Insert(_, _, _, child) => ItemCount(child) + 1
    case Delete(_, _, _, child) => ItemCount(child) - 1
    case Split(_, _, n, child) => ItemCount(child) - n
    case Merge(_, _, right, child) => ItemCount(child) + ItemCount(right)
    case Remove(_, child) => ItemCount(child)
  }

  function Depth(c: Chain): nat
  {
    match c
    case Leaf(_, _, _) => 0
    case Insert(_, _, _, child) => Depth(child) + 1
    case Delete(_, _, _, child) => Depth(child) + 1
    case Split(_, _, _, child) => Depth(child)
    case Merge(_, _, right, child) => Depth(child) + Depth(right)
    case Remove(_, child) => Depth(child)
  }

  /** The leaf below the deltas in which the key would be found. */
  function BaseFor(c: Chain, k: int): (b: Chain)
    ensures b.Leaf?
  {
    match c
    case Leaf(_, _, _) => c
    case Merge(mergeKey, _, right, child) => if mergeKey <= k then BaseFor(right, k) else BaseFor(child, k)
    case _ => BaseFor(c.child, k)
  }

  // ------------------------------------------------------------------------------------
  // Meaning: the log replayed, oldest record first
  // ------------------------------------------------------------------------------------

  ghost function Replay(c: Chain): set<Item>
  {
    match c
    case Leaf(_, _, items) => set x | x in items
    case Insert(item, _, _, child) => Replay(child) + {item}
    case Delete(item, _, _, child) => Replay(child) - {item}
    case Split(k, _, _, child) => set x | x in Replay(child) && x.key < k
    case Merge(_, _, right, child) => Replay(child) + Replay(right)
    case Remove(_, child) => Replay(child)
  }

  /** `index` and `exists_` are the place of an item in a leaf: its own position, or else the end
      of the run of smaller and equal keys. */
  ghost predicate Placed(items: seq<Item>, item: Item, index: nat, exists_: bool)
  {
    && index <= |items|
    && (exists_ ==> index < |items| && items[index] == item)
    && (!exists_ ==>
        && item !in items
        && (forall i :: 0 <= i < index ==> items[i].key <= item.key)
        && (forall i :: index <= i < |items| ==> item.key < items[i].key))
  }

  /** The items in front of a place have keys no larger than the item placed there. */
  lemma PlacedAbove(items: seq<Item>, x: Item, index: nat, ex: bool, p: nat)
    requires SortedByKey(items) && Placed(items, x, index, ex)
    ensures p < index ==> p < |items| && items[p].key <= x.key
    ensures index <= p < |items| ==> x.key <= items[p].key
  {
  }

  /** A leaf is split where the key changes; `n` items go to the sibling. */
  ghost predicate SplitsLeaf(items: seq<Item>, k: int, n: int)
  {
    && 0 < n < |items|
    && items[|items| - n].key == k
    && items[|items| - n - 1].key < k
  }

  ghost predicate LeafWellFormed(low: Low, high: High, items: seq<Item>)
  {
    && SortedByKey(items) && Distinct(items)
    && forall i :: 0 <= i < |items| ==> InRange(items[i].key, low, high)
  }

  /** Chains as the tree builds them: data deltas only for keys of the node, insertions of absent
      and deletions of present items, splits only directly on a leaf, merges of neighbours. */
  ghost predicate WellFormed(c: Chain)
  {
    match c
    case Leaf(low, high, items) => LeafWellFormed(low, high, items)
    case Insert(item, index, ex, child) =>
      && WellFormed(child) && !child.Remove?
      && InRange(item.key, LowOf(child), HighOf(child))
      && item !in Replay(child)
      && Placed(BaseFor(child, item.key).items, item, index, ex)
    case Delete(item, index, ex, child) =>
      && WellFormed(child) && !child.Remove?
      && InRange(item.key, LowOf(child), HighOf(child))
      && item in Replay(child)
      && Placed(BaseFor(child, item.key).items, item, index, ex)
    case Split(k, _, n, child) =>
      && WellFormed(child) && child.Leaf?
      && SplitsLeaf(child.items, k, n)
    case Merge(k, id, right, child) =>
      && WellFormed(child) && WellFormed(right) && !child.Remove? && !right.Remove?
      && HighOf(child) == HighAt(k, id) && LowOf(right) == LowAt(k)
      && BelowHigh(k, HighOf(right))
      && AboveLow(k, LowOf(child))
    case Remove(_, child) => WellFormed(child) && child.Leaf?
  }

  lemma {:induction false} ReplayInRange(c: Chain, x: Item)
    requires WellFormed(c) && x in Replay(c)
    ensures InRange(x.key, LowOf(c), HighOf(c))
  {
    match c
    case Leaf(_, _, items) =>
    case Insert(item, _, _, child) => if x != item { ReplayInRange(child, x); }
    case Delete(_, _, _, child) => ReplayInRange(child, x);
    case Split(_, _, _, child) => ReplayInRange(child, x);
    case Merge(k, _, right, child) =>
      if x in Replay(child) { ReplayInRange(child, x); } else { ReplayInRange(right, x); }
    case Remove(_, child) => ReplayInRange(child, x);
  }

  /** Keys of the node decide which side of a merge an item is on. */
  lemma MergeSides(c: Chain, x: Item)
    requires WellFormed(c) && c.Merge?
    ensures x in Replay(c) && x.key < c.mergeKey ==> x in Replay(c.child)
    ensures x in Replay(c) && c.mergeKey <= x.key ==> x in Replay(c.right)
    ensures x in Replay(c.child) ==> x.key < c.mergeKey
    ensures x in Replay(c.right) ==> c.mergeKey <= x.key
  {
    if x in Replay(c.child) { ReplayInRange(c.child, x); }
    if x in Replay(c.right) { ReplayInRange(c.right, x); }
  }

  // ------------------------------------------------------------------------------------
  // The cached item count
  // ------------------------------------------------------------------------------------

  /** The count every node caches is the number of stored items. */
  lemma {:induction false} ItemCountExact(c: Chain)
    requires WellFormed(c)
    ensures ItemCount(c) == |Replay(c)|
  {
    match c
    case Leaf(_, _, items) => DistinctCount(items);
    case Insert(item, _, _, child) => ItemCountExact(child);
    case Delete(item, _, _, child) => ItemCountExact(child);
    case Split(k, _, n, child) => SplitCount(child, k, n);
    case Merge(_, _, right, child) =>
      ItemCountExact(child);
      ItemCountExact(right);
      forall x | x in Replay(child) && x in Replay(right)
        ensures false
      {
        MergeSides(c, x);
      }
      assert Replay(child) !! Replay(right);
    case Remove(_, child) => ItemCountExact(child);
  }

  ghost function ItemSet(items: seq<Item>): set<Item>
  {
    set x | x in items
  }

  lemma {:induction false} DistinctCount(items: seq<Item>)
    requires Distinct(items)
    ensures |ItemSet(items)| == |items|
  {
    if items != [] {
      var n := |items| - 1;
      DistinctCount(items[..n]);
      assert items == items[..n] + [items[n]];
      assert ItemSet(items) == ItemSet(items[..n]) + {items[n]};
    }
  }

  lemma SplitCount(c: Chain, k: int, n: int)
    requires WellFormed(c) && c.Leaf? && SplitsLeaf(c.items, k, n)
    ensures |Replay(Split(k, 0, n, c))| == |c.items| - n
    ensures forall s :: Replay(Split(k, s, n, c)) == ItemSet(c.items[..|c.items| - n])
  {
    var m := |c.items| - n;
    SplitItems(c.items, k, m);
    forall s
      ensures Replay(Split(k, s, n, c)) == ItemSet(c.items[..m])
    {
    }
    DistinctCount(c.items[..m]);
  }

  /** The items below the split key are those in front of the split position. */
  lemma SplitItems(items: seq<Item>, k: int, m: nat)
    requires SortedByKey(items) && 0 < m < |items| && items[m].key == k && items[m - 1].key < k
    ensures forall x :: x in items && x.key < k <==> x in items[..m]
    ensures forall x :: x in items && k <= x.key <==> x in items[m..]
  {
    forall x | x in items && x.key < k
      ensures x in items[..m]
    {
      var i :| 0 <= i < |items| && items[i] == x;
      assert i < m;
    }
    forall x | x in items && k <= x.key
      ensures x in items[m..]
    {
      var i :| 0 <= i < |items| && items[i] == x;
      assert m <= i;
      assert items[m..][i - m] == x;
    }
  }

  // ------------------------------------------------------------------------------------
  // Existence lookup
  // ------------------------------------------------------------------------------------

  /** `NavigateLeafNode` with a value: decides whether the pair is stored by looking at the newest
      record for it, and returns its place in the leaf, which the next delta for it will carry. */
  method NavigateLeafNode(top: Chain, key: int, value: int) returns (found: bool, index: nat, exists_: bool)
    requires WellFormed(top) && !top.Remove? && InRange(key, LowOf(top), HighOf(top))
    ensures found <==> Item(key, value) in Replay(top)
    ensures Placed(BaseFor(top, key).items, Item(key, value), index, exists_)
  {
    var node := top;
    var item := Item(key, value);
    while !node.Leaf?
      invariant WellFormed(node) && !node.Remove?
      invariant InRange(key, LowOf(node), HighOf(node))
      invariant BaseFor(node, key) == BaseFor(top, key)
      invariant item in Replay(node) <==> item in Replay(top)
      decreases node
    {
      match node {
        case Insert(x, i, ex, child) =>
          if x == item {
            return true, i, ex;
          }
          node := child;
        case Delete(x, i, ex, child) =>
          if x == item {
            return false, i, ex;
          }
          node := child;
        case Split(_, _, _, child) =>
          SplitKeepsRange(node, key);
          node := child;
        case Merge(mergeKey, _, right, child) =>
          MergeSides(node, item);
          node := if mergeKey <= key then right else child;
      }
    }
    found, index, exists_ := ScanLeaf(node.items, item);
  }

  lemma SplitKeepsRange(c: Chain, k: int)
    requires WellFormed(c) && c.Split? && InRange(k, LowOf(c), HighOf(c))
    ensures InRange(k, LowOf(c.child), HighOf(c.child))
  {
    var items := c.child.items;
    assert InRange(items[|items| - c.siblingCount].key, c.child.low, c.child.high);
  }

  /** The scan of the leaf: all items with the key, from its lower bound on. */
  method ScanLeaf(items: seq<Item>, item: Item) returns (found: bool, index: nat, exists_: bool)
    requires SortedByKey(items)
    ensures found == exists_ && (found <==> item in items)
    ensures Placed(items, item, index, exists_)
  {
    index := LowerBound(items, item.key);
    LowerBoundSplits(items, item.key);
    while index < |items| && items[index].key == item.key
      invariant index <= |items|
      invariant forall i :: 0 <= i < index ==> items[i].key <= item.key && items[i] != item
      invariant index < |items| ==> item.key <= items[index].key
    {
      if items[index].value == item.value {
        return true, index, true;
      }
      index := index + 1;
    }
    found, exists_ := false, false;
  }
}
