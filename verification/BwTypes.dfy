/** Bounds and key-value items shared by all Bw-Tree modules.

Keys are compared by a total order and values only for equality; integers stand for both. */
module BwTypes {

  type NodeId = nat

  datatype Item = Item(key: int, value: int)

  /** The low key of a node; the leftmost node of a level has none. */
  datatype Low = NegInf | LowAt(key: int)

  /** The high key with the NodeID of the right sibling; the rightmost node has neither. */
  datatype High = PosInf | HighAt(key: int, next: NodeId)

  predicate AboveLow(k: int, low: Low)
  {
    low.NegInf? || low.key <= k
  }

  predicate BelowHigh(k: int, high: High)
  {
    high.PosInf? || k < high.key
  }

  predicate InRange(k: int, low: Low, high: High)
  {
    AboveLow(k, low) && BelowHigh(k, high)
  }

  ghost predicate SortedByKey(items: seq<Item>)
  {
    forall i, j :: 0 <= i < j < |items| ==> items[i].key <= items[j].key
  }

  ghost predicate Distinct(items: seq<Item>)
  {
    forall i, j :: 0 <= i < j < |items| ==> items[i] != items[j]
  }

  /** `std::lower_bound` by key: the first position whose key is not below `k`. */
  function LowerBound(items: seq<Item>, k: int): (i: nat)
    ensures i <= |items|
    ensures forall j :: 0 <= j < i ==> items[j].key < k
    ensures i < |items| ==> k <= items[i].key
  {
    if items == [] || k <= items[0].key then 0 else 1 + LowerBound(items[1..], k)
  }

  lemma LowerBoundSplits(items: seq<Item>, k: int)
    requires SortedByKey(items)
    ensures forall j :: LowerBound(items, k) <= j < |items| ==> k <= items[j].key
  {
  }
}
