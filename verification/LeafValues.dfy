/** Collecting the values of one key from a leaf chain without consolidating it.

Records for other keys on the way down bound the part of the leaf that is searched.  The bounds are
not reset at a merge, where the search moves on to one of two leaves. */
module LeafValues {
  import opened BwTypes
  import opened LeafChain

  /** The bounds that the records of a chain leave behind for the leaf, newest first: the place of a
      smaller key replaces the start, that of a larger key the end. */
  function Hints(c: Chain, key: int, start: nat, end: int): (nat, int)
    decreases c, 0
  {
    match c
    case Leaf(_, _, _) => (start, end)
    case Insert(item, index, _, child) => HintsPast(child, key, item.key, index, start, end)
    case Delete(item, index, _, child) => HintsPast(child, key, item.key, index, start, end)
    case Merge(mergeKey, _, right, child) => Hints(if mergeKey <= key then right else child, key, start, end)
    case Split(_, _, _, child) => Hints(child, key, start, end)
    case Remove(_, child) => Hints(child, key, start, end)
  }

  function HintsPast(child: Chain, key: int, k: int, index: nat, start: nat, end: int): (nat, int)
    decreases child, 1
  {
    if k == key then Hints(child, key, start, end)
    else if k < key then Hints(child, key, index, end)
    else Hints(child, key, start, index)
  }

  /** The bounds are positions in the leaf, in order; -1 stands for the end of the leaf. */
  predicate InLeaf(items: seq<Item>, hints: (nat, int))
  {
    hints.0 <= |items| && (hints.1 == -1 || hints.0 <= hints.1 <= |items|)
  }

  /** There is a record for the item on the way down to its leaf. */
  predicate Recorded(c: Chain, x: Item)
  {
    match c
    case Leaf(_, _, _) => false
    case Insert(item, _, _, child) => item == x || Recorded(child, x)
    case Delete(item, _, _, child) => item == x || Recorded(child, x)
    case Merge(mergeKey, _, right, child) => Recorded(if mergeKey <= x.key then right else child, x)
    case Split(_, _, _, child) => Recorded(child, x)
    case Remove(_, child) => Recorded(child, x)
  }

  /** The item of the leaf at position `i` is outside the bounds of the search for its key. */
  predicate Excluded(items: seq<Item>, hints: (nat, int), i: nat)
    requires i < |items|
  {
    i < hints.0 || (hints.1 != -1 && hints.1 < LowerBound(items, items[i].key))
  }

  /** The item is stored in the leaf only, where the bounds exclude it. */
  ghost predicate Lost(c: Chain, x: Item)
  {
    var items := BaseFor(c, x.key).items;
    && !Recorded(c, x)
    && exists i :: 0 <= i < |items| && items[i] == x && Excluded(items, Hints(c, x.key, 0, -1), i)
  }

  ghost predicate NoRepeats(values: seq<int>)
  {
    forall i, j :: 0 <= i < j < |values| ==> values[i] != values[j]
  }

  // ------------------------------------------------------------------------------------
  // The walk down
  // ------------------------------------------------------------------------------------

  /** Values already listed and values already known to be deleted decide; for all others the rest of
      the chain does. */
  ghost predicate Walked(top: Chain, node: Chain, key: int, present: set<int>, deleted: set<int>)
  {
    && WellFormed(node) && !node.Remove? && InRange(key, LowOf(node), HighOf(node))
    && BaseFor(node, key) == BaseFor(top, key)
    && present !! deleted
    && (forall v :: Item(key, v) in Replay(top) <==> v in present || (v !in deleted && Item(key, v) in Replay(node)))
    && (forall v :: Recorded(top, Item(key, v)) <==> v in present || v in deleted || Recorded(node, Item(key, v)))
  }

  ghost predicate Listed(values: seq<int>, present: set<int>)
  {
    NoRepeats(values) && (forall v :: v in values <==> v in present)
  }

  lemma WalkedStart(top: Chain, key: int)
    requires WellFormed(top) && !top.Remove? && InRange(key, LowOf(top), HighOf(top))
    ensures Walked(top, top, key, {}, {})
  {
    hide WellFormed, InRange, BaseFor, Replay, Recorded;
  }

  lemma DataChild(c: Chain, key: int)
    requires WellFormed(c) && !c.Remove? && InRange(key, LowOf(c), HighOf(c)) && (c.Insert? || c.Delete?)
    ensures WellFormed(c.child) && !c.child.Remove? && InRange(key, LowOf(c.child), HighOf(c.child))
    ensures BaseFor(c, key) == BaseFor(c.child, key)
    ensures forall x :: x != c.item ==> (x in Replay(c) <==> x in Replay(c.child))
    ensures forall x :: Recorded(c, x) <==> c.item == x || Recorded(c.child, x)
    ensures c.item in Replay(c) <==> c.Insert?
  {
    hide InRange, Placed;
  }

  lemma WalkedData(top: Chain, node: Chain, key: int, present: set<int>, deleted: set<int>)
    requires Walked(top, node, key, present, deleted) && (node.Insert? || node.Delete?)
    ensures var v := node.item.value;
            var here := node.item.key == key && v !in present && v !in deleted;
            Walked(top, node.child, key, if here && node.Insert? then present + {v} else present,
                   if here && node.Delete? then deleted + {v} else deleted)
  {
    hide WellFormed, InRange, BaseFor, Replay, Recorded, LowOf, HighOf;
    DataChild(node, key);
  }

  lemma WalkedSplit(top: Chain, node: Chain, key: int, present: set<int>, deleted: set<int>)
    requires Walked(top, node, key, present, deleted) && node.Split?
    ensures Walked(top, node.child, key, present, deleted)
  {
    SplitKeepsRange(node, key);
    hide InRange, SplitsLeaf, Placed;
    assert BelowHigh(key, HighOf(node)) by { SplitBelow(node, key); }
  }

  lemma SplitBelow(c: Chain, key: int)
    requires c.Split? && InRange(key, LowOf(c), HighOf(c))
    ensures BelowHigh(key, HighOf(c)) && key < c.splitKey
  {
  }

  lemma WalkedMerge(top: Chain, node: Chain, key: int, present: set<int>, deleted: set<int>)
    requires Walked(top, node, key, present, deleted) && node.Merge?
    ensures Walked(top, if node.mergeKey <= key then node.right else node.child, key, present, deleted)
  {
    MergeChild(node, key);
    hide WellFormed, InRange, BaseFor, Replay, Recorded, LowOf, HighOf;
  }

  lemma MergeChild(c: Chain, key: int)
    requires WellFormed(c) && c.Merge? && InRange(key, LowOf(c), HighOf(c))
    ensures var side := if c.mergeKey <= key then c.right else c.child;
            && WellFormed(side) && !side.Remove? && InRange(key, LowOf(side), HighOf(side))
            && BaseFor(c, key) == BaseFor(side, key)
            && (forall v :: Item(key, v) in Replay(c) <==> Item(key, v) in Replay(side))
            && (forall v :: Recorded(c, Item(key, v)) <==> Recorded(side, Item(key, v)))
  {
    hide Placed, SplitsLeaf;
    var side := if c.mergeKey <= key then c.right else c.child;
    forall v
      ensures Item(key, v) in Replay(c) <==> Item(key, v) in Replay(side)
    {
      MergeSides(c, Item(key, v));
    }
  }

  lemma ListedMore(values: seq<int>, present: set<int>, v: int)
    requires Listed(values, present) && v !in present
    ensures Listed(values + [v], present + {v})
  {
  }

  // ------------------------------------------------------------------------------------
  // The leaf
  // ------------------------------------------------------------------------------------

  /** `std::lower_bound` between two positions. */
  function LowerBoundIn(items: seq<Item>, k: int, start: nat, end: nat): (i: nat)
    requires start <= end <= |items|
    ensures start <= i <= end
    ensures forall j :: start <= j < i ==> items[j].key < k
    ensures i < end ==> k <= items[i].key
    decreases end - start
  {
    if start == end || k <= items[start].key then start else LowerBoundIn(items, k, start + 1, end)
  }

  /** The item is in the leaf, at a place the bounds do not exclude. */
  ghost predicate Seen(items: seq<Item>, hints: (nat, int), x: Item)
  {
    exists i :: 0 <= i < |items| && items[i] == x && !Excluded(items, hints, i)
  }

  /** The values found in the leaf: those of the key between the bounds without a newer record. */
  method ScanValues(items: seq<Item>, key: int, start: nat, end: int, present: set<int>, deleted: set<int>, values: seq<int>)
    returns (out: seq<int>)
    requires SortedByKey(items) && Distinct(items) && InLeaf(items, (start, end))
    requires Listed(values, present)
    ensures NoRepeats(out)
    ensures forall v :: v in out <==> v in present || (v !in deleted && Seen(items, (start, end), Item(key, v)))
  {
    var endIt := if end == -1 then |items| else end;
    var it := LowerBoundIn(items, key, start, endIt);
    ghost var first := it;
    FirstSeen(items, key, start, end, it);
    out := values;
    hide SortedByKey, Distinct, NoRepeats, Excluded, LowerBoundIn, Seen;
    while it != |items| && key == items[it].key
      invariant first <= it <= |items|
      invariant Scanned(items, key, first, it, present, deleted, out)
      decreases |items| - it
    {
      ScanStep(items, key, first, it, present, deleted, out);
      if items[it].value !in deleted {
        if items[it].value !in present {
          out := out + [items[it].value];
        }
      }
      it := it + 1;
    }
    SeenAll(items, key, start, end, first, it);
  }

  /** The values listed when the scan has come to position `it`. */
  ghost predicate Scanned(items: seq<Item>, key: int, first: nat, it: nat, present: set<int>, deleted: set<int>, out: seq<int>)
    requires first <= it <= |items|
  {
    && NoRepeats(out) && (forall i :: first <= i < it ==> items[i].key == key)
    && (forall v :: v in out <==> v in present || (v !in deleted && Item(key, v) in items[first..it]))
  }

  lemma ScanStep(items: seq<Item>, key: int, first: nat, it: nat, present: set<int>, deleted: set<int>, out: seq<int>)
    requires first <= it < |items| && items[it].key == key && Distinct(items)
    requires Scanned(items, key, first, it, present, deleted, out)
    ensures var v := items[it].value;
            Scanned(items, key, first, it + 1, present, deleted, if v !in deleted && v !in present then out + [v] else out)
  {
    hide Distinct, NoRepeats;
    var v := items[it].value;
    assert items[first..it + 1] == items[first..it] + [items[it]];
    assert items[it] == Item(key, v);
    NotBefore(items, first, it);
    if v !in deleted && v !in present { RepeatsNot(out, v); }
  }

  lemma RepeatsNot(values: seq<int>, v: int)
    requires NoRepeats(values) && v !in values
    ensures NoRepeats(values + [v])
  {
  }

  lemma NotBefore(items: seq<Item>, i: nat, j: nat)
    requires Distinct(items) && i <= j < |items|
    ensures items[j] !in items[i..j]
  {
  }

  lemma FirstSeen(items: seq<Item>, key: int, start: nat, end: int, it: nat)
    requires SortedByKey(items) && InLeaf(items, (start, end))
    requires it == LowerBoundIn(items, key, start, if end == -1 then |items| else end)
    ensures forall i :: 0 <= i < |items| && items[i].key == key ==>
      (!Excluded(items, (start, end), i) <==> it <= i && items[it].key == key)
  {
    LowerBoundSplits(items, key);
  }

  lemma SeenAll(items: seq<Item>, key: int, start: nat, end: int, first: nat, it: nat)
    requires SortedByKey(items) && first <= it <= |items|
    requires forall i :: first <= i < it ==> items[i].key == key
    requires it < |items| ==> items[it].key != key
    requires forall i :: 0 <= i < |items| && items[i].key == key ==>
      (!Excluded(items, (start, end), i) <==> first <= i && items[first].key == key)
    ensures forall v :: Item(key, v) in items[first..it] <==> Seen(items, (start, end), Item(key, v))
  {
    hide Excluded;
    forall v
      ensures Item(key, v) in items[first..it] <==> Seen(items, (start, end), Item(key, v))
    {
      var x := Item(key, v);
      if x in items[first..it] {
        var p :| 0 <= p < it - first && items[first..it][p] == x;
        assert items[first + p] == x;
        assert !Excluded(items, (start, end), first + p);
      }
      if Seen(items, (start, end), x) {
        var i :| 0 <= i < |items| && items[i] == x && !Excluded(items, (start, end), i);
        assert first <= i < it;
        assert items[first..it][i - first] == x;
      }
    }
  }

  // ------------------------------------------------------------------------------------
  // The lookup
  // ------------------------------------------------------------------------------------

  lemma {:induction false} BaseSorted(c: Chain, key: int)
    requires WellFormed(c)
    ensures SortedByKey(BaseFor(c, key).items) && Distinct(BaseFor(c, key).items)
  {
    hide Placed, SplitsLeaf, SortedByKey, Distinct, Replay;
    match c
    case Leaf(_, _, _) =>
    case Merge(mergeKey, _, right, child) => if mergeKey <= key { BaseSorted(right, key); } else { BaseSorted(child, key); }
    case Insert(_, _, _, child) => BaseSorted(child, key);
    case Delete(_, _, _, child) => BaseSorted(child, key);
    case Split(_, _, _, child) => BaseSorted(child, key);
    case Remove(_, child) => BaseSorted(child, key);
  }

  lemma ListedStart()
    ensures Listed([], {})
  {
  }

  lemma NotRemoved(top: Chain, node: Chain, key: int, present: set<int>, deleted: set<int>)
    requires Walked(top, node, key, present, deleted)
    ensures !node.Remove? && WellFormed(node) && present !! deleted
    ensures BaseFor(node, key) == BaseFor(top, key)
  {
    hide WellFormed, BaseFor, InRange, Replay, Recorded;
  }

  lemma LostExactly(top: Chain, leaf: Chain, key: int, present: set<int>, deleted: set<int>, hints: (nat, int))
    requires Walked(top, leaf, key, present, deleted) && leaf.Leaf? && hints == Hints(top, key, 0, -1)
    ensures forall v :: v in present || (v !in deleted && Seen(leaf.items, hints, Item(key, v)))
                        <==> Item(key, v) in Replay(top) && !Lost(top, Item(key, v))
  {
    AtLeaf(top, leaf, key, present, deleted);
    hide Walked, WellFormed, BaseFor, InRange, Replay, Recorded, Hints, Excluded;
    forall v
      ensures v in present || (v !in deleted && Seen(leaf.items, hints, Item(key, v)))
              <==> Item(key, v) in Replay(top) && !Lost(top, Item(key, v))
    {
      LostOne(leaf.items, hints, Item(key, v));
    }
  }

  lemma AtLeaf(top: Chain, leaf: Chain, key: int, present: set<int>, deleted: set<int>)
    requires Walked(top, leaf, key, present, deleted) && leaf.Leaf?
    ensures BaseFor(top, key) == leaf && Distinct(leaf.items)
    ensures forall v :: Item(key, v) in Replay(top) <==> v in present || (v !in deleted && Item(key, v) in leaf.items)
    ensures forall v :: Recorded(top, Item(key, v)) <==> v in present || v in deleted
  {
    hide InRange, SortedByKey, Distinct;
  }

  lemma LostOne(items: seq<Item>, hints: (nat, int), x: Item)
    requires Distinct(items)
    ensures x in items <==> Seen(items, hints, x) || (exists i :: 0 <= i < |items| && items[i] == x && Excluded(items, hints, i))
    ensures !(Seen(items, hints, x) && exists i :: 0 <= i < |items| && items[i] == x && Excluded(items, hints, i))
  {
    hide Excluded;
    if x in items {
      var i :| 0 <= i < |items| && items[i] == x;
      assert Excluded(items, hints, i) || !Excluded(items, hints, i);
    }
  }

  /** `NavigateLeafNode` without a value: lists, without repeats, exactly the stored values of the key
      except the lost ones. */
  method NavigateLeafNode(top: Chain, key: int) returns (values: seq<int>)
    requires WellFormed(top) && !top.Remove? && InRange(key, LowOf(top), HighOf(top))
    requires InLeaf(BaseFor(top, key).items, Hints(top, key, 0, -1))
    ensures forall v :: v in values <==> Item(key, v) in Replay(top) && !Lost(top, Item(key, v))
    ensures NoRepeats(values)
  {
    hide Walked, Listed, WellFormed, InRange, Replay, LowOf, HighOf, NoRepeats, InLeaf, Lost, Recorded, Seen;
    WalkedStart(top, key);
    var node := top;
    var present: set<int>, deleted: set<int> := {}, {};
    var startIndex: nat, endIndex: int := 0, -1;
    values := [];
    ListedStart();
    while !node.Leaf?
      invariant Walked(top, node, key, present, deleted) && Listed(values, present)
      invariant Hints(node, key, startIndex, endIndex) == Hints(top, key, 0, -1)
      decreases node
    {
      NotRemoved(top, node, key, present, deleted);
      if node.Merge? {
        WalkedMerge(top, node, key, present, deleted);
        node := if key >= node.mergeKey then node.right else node.child;
      } else if node.Split? {
        WalkedSplit(top, node, key, present, deleted);
        node := node.child;
      } else {
        WalkedData(top, node, key, present, deleted);
        var v := node.item.value;
        if key == node.item.key {
          if node.Insert? {
            if v !in deleted {
              if v !in present {
                ListedMore(values, present, v);
                present := present + {v};
                values := values + [v];
              }
            }
          } else if v !in present {
            assert v in deleted ==> deleted + {v} == deleted;
            deleted := deleted + {v};
          }
        } else if key > node.item.key {
          startIndex := node.index;
        } else {
          endIndex := node.index;
        }
        node := node.child;
      }
    }
    NotRemoved(top, node, key, present, deleted);
    BaseSorted(node, key);
    values := ScanValues(node.items, key, startIndex, endIndex, present, deleted, values);
    LostExactly(top, node, key, present, deleted, (startIndex, endIndex));
  }

  // ------------------------------------------------------------------------------------
  // When nothing is lost
  // ------------------------------------------------------------------------------------

  /** Every record for another key on the way down has its place in the leaf where the search for
      `key` ends. */
  predicate HintsLocal(c: Chain, key: int)
  {
    match c
    case Leaf(_, _, _) => true
    case Merge(mergeKey, _, right, child) => HintsLocal(if mergeKey <= key then right else child, key)
    case Insert(item, _, _, child) => HintsLocal(child, key) && BaseFor(child, item.key) == BaseFor(child, key)
    case Delete(item, _, _, child) => HintsLocal(child, key) && BaseFor(child, item.key) == BaseFor(child, key)
    case Split(_, _, _, child) => HintsLocal(child, key)
    case Remove(_, child) => HintsLocal(child, key)
  }

  predicate MergeFree(c: Chain)
  {
    c.Leaf? || (!c.Merge? && MergeFree(c.child))
  }

  lemma {:induction false} MergeFreeIsLocal(c: Chain, key: int)
    requires MergeFree(c)
    ensures HintsLocal(c, key)
    ensures forall k :: BaseFor(c, k) == BaseFor(c, key)
  {
    if !c.Leaf? { MergeFreeIsLocal(c.child, key); }
  }

  /** The search range contains every item with the key. */
  ghost predicate Bounds(items: seq<Item>, key: int, hints: (nat, int))
  {
    && InLeaf(items, hints) && (forall i :: 0 <= i < hints.0 ==> items[i].key < key)
    && (hints.1 != -1 ==> forall i :: hints.1 <= i < |items| ==> key < items[i].key)
  }

  lemma BoundFromPlace(items: seq<Item>, key: int, start: nat, end: int, x: Item, index: nat, ex: bool)
    requires SortedByKey(items) && Bounds(items, key, (start, end)) && Placed(items, x, index, ex)
    ensures x.key < key ==> Bounds(items, key, (index, end))
    ensures key < x.key ==> Bounds(items, key, (start, index))
  {
    if end >= 0 { PlacedAbove(items, x, index, ex, end); }
    PlacedAbove(items, x, index, ex, index);
  }

  lemma {:induction false} LocalBounds(c: Chain, key: int, start: nat, end: int)
    requires WellFormed(c) && HintsLocal(c, key) && Bounds(BaseFor(c, key).items, key, (start, end))
    ensures Bounds(BaseFor(c, key).items, key, Hints(c, key, start, end))
    decreases c, 0
  {
    BaseSorted(c, key);
    hide Bounds, SortedByKey, Distinct, SplitsLeaf, Replay, Placed, InRange;
    match c
    case Leaf(_, _, _) =>
    case Merge(mergeKey, _, right, child) => LocalBounds(if mergeKey <= key then right else child, key, start, end);
    case Insert(x, index, ex, child) => LocalBoundsPast(child, key, x, index, ex, start, end);
    case Delete(x, index, ex, child) => LocalBoundsPast(child, key, x, index, ex, start, end);
    case Split(_, _, _, child) => LocalBounds(child, key, start, end);
    case Remove(_, child) => LocalBounds(child, key, start, end);
  }

  lemma {:induction false} LocalBoundsPast(c: Chain, key: int, x: Item, index: nat, ex: bool, start: nat, end: int)
    requires WellFormed(c) && HintsLocal(c, key) && Bounds(BaseFor(c, key).items, key, (start, end))
    requires Placed(BaseFor(c, x.key).items, x, index, ex) && BaseFor(c, x.key) == BaseFor(c, key)
    ensures Bounds(BaseFor(c, key).items, key, HintsPast(c, key, x.key, index, start, end))
    decreases c, 1
  {
    BaseSorted(c, key);
    BoundFromPlace(BaseFor(c, key).items, key, start, end, x, index, ex);
    hide Bounds, WellFormed, Placed;
    if x.key == key {
      LocalBounds(c, key, start, end);
    } else if x.key < key {
      LocalBounds(c, key, index, end);
    } else {
      LocalBounds(c, key, start, index);
    }
  }

  /** With local records, as in every chain without a merge, the bounds are in the leaf and no value
      of the key is lost. */
  lemma LocalHintsLoseNothing(c: Chain, key: int)
    requires WellFormed(c) && HintsLocal(c, key)
    ensures InLeaf(BaseFor(c, key).items, Hints(c, key, 0, -1))
    ensures forall v :: !Lost(c, Item(key, v))
  {
    BaseSorted(c, key);
    hide WellFormed, HintsLocal, BaseFor, Hints, Recorded;
    LocalBounds(c, key, 0, -1);
    var items, hints := BaseFor(c, key).items, Hints(c, key, 0, -1);
    BoundsCover(items, key, hints);
  }

  lemma BoundsCover(items: seq<Item>, key: int, hints: (nat, int))
    requires Bounds(items, key, hints)
    ensures forall i :: 0 <= i < |items| && items[i].key == key ==> !Excluded(items, hints, i)
  {
    if 0 <= hints.1 < |items| { assert key < items[hints.1].key; }
  }
}
