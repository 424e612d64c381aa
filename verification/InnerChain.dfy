/** Inner delta chains: the separators they stand for, and the two ways they are searched. */
module InnerChain {
  import opened BwTypes

  datatype Sep = Sep(key: int, id: NodeId)

  /** An inner node with the deltas on top of it.  The first item of a base node is its low key with
      the leftmost child; if the node has no low key, the key of that item means nothing.  Insert and
      delete deltas carry a position in the base below (`loc`) and the neighbours of their key. */
  datatype Inner =
    | Base(low: Low, high: High, items: seq<Sep>)
    | Insert(item: Sep, next: High, loc: nat, child: Inner)
    | Delete(item: Sep, prev: Sep, next: High, loc: nat, child: Inner)
    | Split(splitKey: int, sibling: NodeId, siblingCount: int, child: Inner)
    | Merge(mergeKey: int, deletedId: NodeId, right: Inner, child: Inner)
    | Remove(removedId: NodeId, child: Inner)
    | Abort(child: Inner)

  function LowOf(c: Inner): Low
  {
    if c.Base? then c.low else LowOf(c.child)
  }

  function HighOf(c: Inner): High
  {
    match c
    case Base(_, high, _) => high
    case Split(k, sibling, _, _) => HighAt(k, sibling)
    case Merge(_, _, right, _) => HighOf(right)
    case _ => HighOf(c.child)
  }

  /** The leftmost base node, which holds the low key of the chain. */
  function LowBase(c: Inner): (b: Inner)
    ensures b.Base? && b.low == LowOf(c)
  {
    if c.Base? then c else LowBase(c.child)
  }

  /** `GetLowKeyNodeID`: the leftmost child. */
  function LowIdOf(c: Inner): NodeId
  {
    var items := LowBase(c).items;
    if items == [] then 0 else items[0].id
  }

  function ItemCount(c: Inner): int
  {
    match c
    case Base(_, _, items) => |items|
    case Insert(_, _, _, child) => ItemCount(child) + 1
    case Delete(_, _, _, _, child) => ItemCount(child) - 1
    case Split(_, _, n, child) => ItemCount(child) - n
    case Merge(_, _, right, child) => ItemCount(child) + ItemCount(right)
    case Remove(_, child) => ItemCount(child)
    case Abort(child) => ItemCount(child)
  }

  function Depth(c: Inner): nat
  {
    match c
    case Base(_, _, _) => 0
    case Insert(_, _, _, child) => Depth(child) + 1
    case Delete(_, _, _, _, child) => Depth(child) + 1
    case Split(_, _, _, child) => Depth(child)
    case Merge(_, _, right, child) => Depth(child) + Depth(right)
    case Remove(_, child) => Depth(child)
    case Abort(child) => Depth(child)
  }

  /** The base below the deltas in which the key would be found. */
  function BaseFor(c: Inner, k: int): (b: Inner)
    ensures b.Base?
  {
    match c
    case Base(_, _, _) => c
    case Merge(mergeKey, _, right, child) => if mergeKey <= k then BaseFor(right, k) else BaseFor(child, k)
    case _ => BaseFor(c.child, k)
  }

  /** The leftmost children of all base nodes of a chain. */
  function LowIds(c: Inner): set<NodeId>
  {
    match c
    case Base(_, _, items) => {LowIdOf(c)}
    case Merge(_, _, right, child) => LowIds(child) + LowIds(right)
    case _ => LowIds(c.child)
  }

  // ------------------------------------------------------------------------------------
  // Meaning: the separators behind the low key
  // ------------------------------------------------------------------------------------

  ghost function Behind(items: seq<Sep>, from: nat): set<Sep>
  {
    set i | from <= i < |items| :: items[i]
  }

  ghost function Seps(c: Inner): set<Sep>
  {
    match c
    case Base(_, _, items) => Behind(items, 1)
    case Insert(item, _, _, child) => Seps(child) + {item}
    case Delete(item, _, _, _, child) => set s | s in Seps(child) && s.key != item.key
    case Split(k, _, _, child) => set s | s in Seps(child) && s.key < k
    case Merge(k, _, right, child) => Seps(child) + {Sep(k, LowIdOf(right))} + Seps(right)
    case Remove(_, child) => Seps(child)
    case Abort(child) => Seps(child)
  }

  ghost predicate Has(c: Inner, k: int)
  {
    exists s :: s in Seps(c) && s.key == k
  }

  /** The child for a key: that of the largest separator not above it, or else the leftmost one. */
  ghost predicate Routes(c: Inner, k: int, id: NodeId)
  {
    || (id == LowIdOf(c) && forall t :: t in Seps(c) ==> k < t.key)
    || (exists s :: s in Seps(c) && s.id == id && s.key <= k && forall t :: t in Seps(c) && t.key <= k ==> t.key <= s.key)
  }

  predicate StrictlyAbove(k: int, low: Low)
  {
    low.NegInf? || low.key < k
  }

  ghost predicate BaseWellFormed(low: Low, high: High, items: seq<Sep>)
  {
    && |items| > 0 && (low.LowAt? ==> items[0].key == low.key && BelowHigh(low.key, high))
    && (forall i :: 1 <= i < |items| ==> StrictlyAbove(items[i].key, low) && BelowHigh(items[i].key, high))
    && (forall i, j :: 1 <= i < j < |items| ==> items[i].key < items[j].key)
  }

  /** The position of a key in a base: smaller keys are in front of it, all others are not. */
  ghost predicate Located(base: Inner, k: int, loc: nat)
    requires base.Base?
  {
    && loc <= |base.items| && (StrictlyAbove(k, base.low) ==> 1 <= loc)
    && (forall i :: 1 <= i < loc ==> base.items[i].key < k)
    && (forall i :: 1 <= i < |base.items| && loc <= i ==> k <= base.items[i].key)
  }

  /** A base is split at one of its separators; `n` items go to the sibling. */
  ghost predicate SplitsBase(items: seq<Sep>, k: int, n: int)
  {
    0 < n < |items| && items[|items| - n].key == k
  }

  /** Chains as the tree builds them: insertions of absent and deletions of present separators, each
      with its position; splits and removals only directly on a base; merges of neighbours. */
  ghost predicate WellFormed(c: Inner)
  {
    match c
    case Base(low, high, items) => BaseWellFormed(low, high, items)
    case Insert(item, _, loc, child) =>
      && WellFormed(child) && !child.Remove? && !child.Abort?
      && StrictlyAbove(item.key, LowOf(child)) && BelowHigh(item.key, HighOf(child))
      && !Has(child, item.key)
      && Located(BaseFor(child, item.key), item.key, loc)
    case Delete(item, _, _, loc, child) =>
      && WellFormed(child) && !child.Remove? && !child.Abort?
      && Has(child, item.key)
      && Located(BaseFor(child, item.key), item.key, loc)
    case Split(k, _, n, child) =>
      WellFormed(child) && child.Base? && SplitsBase(child.items, k, n)
    case Merge(k, id, right, child) =>
      && WellFormed(child) && WellFormed(right)
      && !child.Remove? && !child.Abort? && !right.Remove? && !right.Abort?
      && HighOf(child) == HighAt(k, id) && LowOf(right) == LowAt(k)
      && BelowHigh(k, HighOf(right)) && StrictlyAbove(k, LowOf(child))
      && LowIdOf(child) !in LowIds(right)
    case Remove(_, child) => WellFormed(child) && child.Base?
    case Abort(child) => WellFormed(child) && !child.Remove? && !child.Abort?
  }

  lemma {:induction false} SepsInRange(c: Inner, s: Sep)
    requires WellFormed(c) && s in Seps(c)
    ensures StrictlyAbove(s.key, LowOf(c)) && BelowHigh(s.key, HighOf(c))
  {
    hide Located, SplitsBase;
    match c
    case Base(_, _, items) =>
    case Insert(item, _, _, child) => if s != item { SepsInRange(child, s); }
    case Delete(_, _, _, _, child) => SepsInRange(child, s);
    case Split(_, _, _, child) => SepsInRange(child, s);
    case Merge(k, _, right, child) =>
      if s in Seps(child) { SepsInRange(child, s); } else if s in Seps(right) { SepsInRange(right, s); }
    case Remove(_, child) => SepsInRange(child, s);
    case Abort(child) => SepsInRange(child, s);
  }

  /** The merge key divides the separators of the two sides. */
  lemma MergeSides(c: Inner, s: Sep)
    requires WellFormed(c) && c.Merge? && s in Seps(c)
    ensures s.key < c.mergeKey <==> s in Seps(c.child)
    ensures s.key == c.mergeKey <==> s == Sep(c.mergeKey, LowIdOf(c.right))
    ensures c.mergeKey < s.key <==> s in Seps(c.right)
  {
    if s in Seps(c.child) { SepsInRange(c.child, s); }
    if s in Seps(c.right) { SepsInRange(c.right, s); }
  }

  /** No two separators have the same key. */
  lemma {:induction false} OneSepPerKey(c: Inner, s: Sep, t: Sep)
    requires WellFormed(c) && s in Seps(c) && t in Seps(c) && s.key == t.key
    ensures s == t
  {
    hide Located, SplitsBase;
    match c
    case Base(_, _, items) =>
    case Insert(item, _, _, child) => if s != item && t != item { OneSepPerKey(child, s, t); }
    case Delete(_, _, _, _, child) => OneSepPerKey(child, s, t);
    case Split(_, _, _, child) => OneSepPerKey(child, s, t);
    case Merge(k, _, right, child) =>
      MergeSides(c, s);
      MergeSides(c, t);
      if s in Seps(child) { OneSepPerKey(child, s, t); } else if s in Seps(right) { OneSepPerKey(right, s, t); }
    case Remove(_, child) => OneSepPerKey(child, s, t);
    case Abort(child) => OneSepPerKey(child, s, t);
  }

  // ------------------------------------------------------------------------------------
  // The cached item count
  // ------------------------------------------------------------------------------------

  /** The count every node caches: all separators and the leftmost child. */
  lemma {:induction false} ItemCountExact(c: Inner)
    requires WellFormed(c)
    ensures ItemCount(c) == |Seps(c)| + 1
  {
    hide Located;
    match c
    case Base(_, _, items) => BaseCount(c, 1);
    case Insert(item, _, _, child) => ItemCountExact(child);
    case Delete(item, _, _, _, child) =>
      ItemCountExact(child);
      var s :| s in Seps(child) && s.key == item.key;
      forall t | t in Seps(child)
        ensures t.key != item.key <==> t != s
      {
        if t.key == item.key { OneSepPerKey(child, s, t); }
      }
      assert Seps(c) == Seps(child) - {s};
    case Split(k, _, n, child) => SplitCount(c);
    case Merge(k, _, right, child) =>
      ItemCountExact(child);
      ItemCountExact(right);
      MergeDisjoint(c);
    case Remove(_, child) => ItemCountExact(child);
    case Abort(child) => ItemCountExact(child);
  }

  lemma MergeDisjoint(c: Inner)
    requires WellFormed(c) && c.Merge?
    ensures |Seps(c)| == |Seps(c.child)| + 1 + |Seps(c.right)|
  {
    var m := Sep(c.mergeKey, LowIdOf(c.right));
    forall s | s in Seps(c)
      ensures s in Seps(c.child) ==> s != m && s !in Seps(c.right)
      ensures s in Seps(c.right) ==> s != m
    {
      MergeSides(c, s);
    }
    hide WellFormed;
    assert Seps(c.child) !! {m} && Seps(c.child) + {m} !! Seps(c.right);
    assert Seps(c) == Seps(c.child) + {m} + Seps(c.right);
  }

  lemma {:induction false} BaseCount(c: Inner, from: nat)
    requires WellFormed(c) && c.Base? && 1 <= from <= |c.items|
    ensures |Behind(c.items, from)| == |c.items| - from
    decreases |c.items| - from
  {
    if from < |c.items| {
      BaseCount(c, from + 1);
      assert Behind(c.items, from) == {c.items[from]} + Behind(c.items, from + 1);
      assert c.items[from] !in Behind(c.items, from + 1);
    } else {
      assert Behind(c.items, from) == {};
    }
  }

  lemma SplitCount(c: Inner)
    requires WellFormed(c) && c.Split?
    ensures ItemCount(c) == |Seps(c)| + 1
  {
    var items, m := c.child.items, |c.child.items| - c.siblingCount;
    BaseCount(c.child, 1);
    BaseCount(c.child, m);
    forall s | s in Behind(items, 1)
      ensures s.key < c.splitKey <==> s !in Behind(items, m)
    {
    }
    assert Seps(c) == Behind(items, 1) - Behind(items, m);
    assert Behind(items, m) <= Behind(items, 1);
  }

  // ------------------------------------------------------------------------------------
  // From node to child on the way down
  // ------------------------------------------------------------------------------------

  /** What the walk needs of a node: it is in place for the key. */
  ghost predicate InPlace(c: Inner, k: int)
  {
    WellFormed(c) && !c.Remove? && !c.Abort? && InRange(k, LowOf(c), HighOf(c))
  }

  lemma DataInPlace(c: Inner, k: int)
    requires InPlace(c, k) && (c.Insert? || c.Delete?)
    ensures InPlace(c.child, k) && LowIdOf(c) == LowIdOf(c.child) && BaseFor(c, k) == BaseFor(c.child, k)
    ensures Located(BaseFor(c.child, c.item.key), c.item.key, c.loc)
  {
    hide Located, Has;
  }

  lemma SplitInPlace(c: Inner, k: int)
    requires InPlace(c, k) && c.Split?
    ensures InPlace(c.child, k) && LowIdOf(c) == LowIdOf(c.child) && k < c.splitKey && c.child.Base?
  {
    var items := c.child.items;
    assert WellFormed(c.child);
    assert BelowHigh(items[|items| - c.siblingCount].key, c.child.high);
  }

  lemma MergeInPlace(c: Inner, k: int)
    requires InPlace(c, k) && c.Merge?
    ensures InPlace(if c.mergeKey <= k then c.right else c.child, k)
    ensures LowIdOf(c) == LowIdOf(c.child) && LowIdOf(c) !in LowIds(c.right)
    ensures BaseFor(c, k) == BaseFor(if c.mergeKey <= k then c.right else c.child, k)
  {
    hide Has, Located;
  }
}
