/** The leaves of the tree under concurrent change.

Every transition is one atomic installation in the mapping table.  A thread computes what it installs
from snapshots it took earlier; what `seen` remembers is every snapshot any thread may have taken. */
module LeafLevel {
  import opened BwTypes
  import opened LeafChain
  import LeafSplit

  datatype Snapshot = Snapshot(id: NodeId, chain: Chain)

  /** A split that is prepared but not installed: the sibling is in the table, still unreachable. */
  datatype Pending = Pending(left: NodeId, base: Chain, key: int, count: int)

  /** `order` lists the leaves that can be reached along the next links; a removed leaf stays in it
      until the merge with its left sibling is installed. */
  datatype State = State(table: map<NodeId, Chain>, order: seq<NodeId>, pending: map<NodeId, Pending>, seen: set<Snapshot>)

  datatype Step =
    | InsertItem(id: NodeId, item: Item, index: nat, exists_: bool)
    | DeleteItem(id: NodeId, item: Item, index: nat, exists_: bool)
    | Consolidate(id: NodeId, leaf: Chain)
    | PrepareSplit(id: NodeId, newId: NodeId, base: Chain, key: int, count: int)
    | InstallSplit(newId: NodeId)
    | DropSplit(newId: NodeId)
    | InstallRemove(id: NodeId)
    | InstallMerge(id: NodeId, removed: NodeId, right: Chain)

  /** `InstallNodeToReplace`, when it succeeds. */
  function Install(s: State, id: NodeId, c: Chain): State
  {
    s.(table := s.table[id := c], seen := s.seen + {Snapshot(id, c)})
  }

  function Sibling(p: Pending): Chain
    requires p.base.Leaf? && 0 < p.count < |p.base.items|
  {
    Leaf(LowAt(p.key), p.base.high, p.base.items[|p.base.items| - p.count..])
  }

  /** A thread can come to the node: it is in the table, and not the sibling of a split that has not
      been installed. */
  predicate Reachable(s: State, id: NodeId)
  {
    id in s.table && id !in s.pending
  }

  /** What a thread has made sure of before its compare-and-swap, and that the swap succeeds. */
  ghost predicate Enabled(s: State, step: Step)
  {
    match step
    case InsertItem(id, item, index, ex) =>
      && Reachable(s, id) && !s.table[id].Remove?
      && InRange(item.key, LowOf(s.table[id]), HighOf(s.table[id]))
      && item !in Replay(s.table[id]) && Placed(BaseFor(s.table[id], item.key).items, item, index, ex)
    case DeleteItem(id, item, index, ex) =>
      && Reachable(s, id) && !s.table[id].Remove?
      && InRange(item.key, LowOf(s.table[id]), HighOf(s.table[id]))
      && item in Replay(s.table[id]) && Placed(BaseFor(s.table[id], item.key).items, item, index, ex)
    case Consolidate(id, leaf) =>
      && Reachable(s, id) && !s.table[id].Remove?
      && leaf.Leaf? && leaf.low == LowOf(s.table[id]) && leaf.high == HighOf(s.table[id])
      && WellFormed(leaf) && Replay(leaf) == Replay(s.table[id])
    case PrepareSplit(id, newId, base, key, count) =>
      && Reachable(s, id) && newId !in s.table && Snapshot(id, base) in s.seen
      && base.Leaf? && LeafSplit.LEAF_NODE_SIZE_UPPER_THRESHOLD <= |base.items| && SplitsLeaf(base.items, key, count)
    case InstallSplit(newId) =>
      && newId in s.pending && Reachable(s, s.pending[newId].left)
      && s.table[s.pending[newId].left] == s.pending[newId].base
    case DropSplit(newId) => newId in s.pending
    case InstallRemove(id) =>
      && Reachable(s, id) && s.table[id].Leaf? && s.table[id].low.LowAt?
      && |s.table[id].items| <= LeafSplit.LEAF_NODE_SIZE_LOWER_THRESHOLD
    case InstallMerge(id, removed, right) =>
      && Reachable(s, id) && !s.table[id].Remove?
      && Snapshot(removed, Remove(removed, right)) in s.seen
      && HighOf(s.table[id]).HighAt? && HighOf(s.table[id]).next == removed
  }

  function After(s: State, step: Step): State
    requires Enabled(s, step)
  {
    match step
    case InsertItem(id, item, index, ex) => Install(s, id, Insert(item, index, ex, s.table[id]))
    case DeleteItem(id, item, index, ex) => Install(s, id, Delete(item, index, ex, s.table[id]))
    case Consolidate(id, leaf) => Install(s, id, leaf)
    case PrepareSplit(id, newId, base, key, count) =>
      var p := Pending(id, base, key, count);
      Install(s, newId, Sibling(p)).(pending := s.pending[newId := p])
    case InstallSplit(newId) =>
      var p := s.pending[newId];
      Install(s, p.left, Split(p.key, newId, p.count, p.base)).(
        pending := s.pending - {newId}, order := InsertedAfter(s.order, p.left, newId))
    case DropSplit(newId) => s.(table := s.table - {newId}, pending := s.pending - {newId})
    case InstallRemove(id) => Install(s, id, Remove(id, s.table[id]))
    case InstallMerge(id, removed, right) =>
      Install(s, id, Merge(HighOf(s.table[id]).key, removed, right, s.table[id])).(order := Without(s.order, removed))
  }

  function InsertedAfter(order: seq<NodeId>, id: NodeId, newId: NodeId): seq<NodeId>
  {
    if order == [] then [] else if order[0] == id then [id, newId] + order[1..] else [order[0]] + InsertedAfter(order[1..], id, newId)
  }

  function Without(order: seq<NodeId>, id: NodeId): seq<NodeId>
  {
    if order == [] then [] else if order[0] == id then order[1..] else [order[0]] + Without(order[1..], id)
  }

  ghost predicate Init(s: State)
  {
    exists first :: s == State(map[first := Leaf(NegInf, PosInf, [])], [first], map[], {Snapshot(first, Leaf(NegInf, PosInf, []))})
  }

  // ------------------------------------------------------------------------------------
  // The invariant
  // ------------------------------------------------------------------------------------

  ghost predicate Live(c: Chain)
  {
    WellFormed(c) && (LowOf(c).LowAt? ==> BelowHigh(LowOf(c).key, HighOf(c)))
  }

  predicate Meets(left: Chain, id: NodeId, right: Chain)
  {
    HighOf(left).HighAt? && HighOf(left).next == id && LowOf(right) == LowAt(HighOf(left).key)
  }

  /** The leaves follow each other along the next links, their ranges touch, the first has no low key
      and the last no high key. */
  ghost predicate Linked(table: map<NodeId, Chain>, order: seq<NodeId>)
  {
    && |order| > 0
    && (forall i :: 0 <= i < |order| ==> order[i] in table && Live(table[order[i]]))
    && (forall i, j :: 0 <= i < j < |order| ==> order[i] != order[j])
    && LowOf(table[order[0]]) == NegInf && HighOf(table[order[|order| - 1]]) == PosInf
    && (forall i :: 0 <= i < |order| - 1 ==> Meets(table[order[i]], order[i + 1], table[order[i + 1]]))
  }

  ghost predicate PendingFormed(s: State)
  {
    forall n :: n in s.pending ==>
      && n in s.table && n !in s.order
      && var p := s.pending[n];
         p.base.Leaf? && Live(p.base) && SplitsLeaf(p.base.items, p.key, p.count) && s.table[n] == Sibling(p)
  }

  /** Nodes outside the order are pending siblings or removed for good, and what was once seen as
      removed still is. */
  ghost predicate Settled(s: State)
  {
    && (forall id :: id in s.table ==> id in s.order || id in s.pending || s.table[id].Remove?)
    && (forall x :: x in s.seen && x.chain.Remove? ==> x.id in s.table && s.table[x.id] == x.chain)
    && (forall x :: x in s.seen && x.chain.Leaf? ==> Live(x.chain))
  }

  ghost predicate Inv(s: State)
  {
    Linked(s.table, s.order) && PendingFormed(s) && Settled(s)
  }

  ghost predicate Stored(s: State, x: Item)
  {
    exists id :: id in s.order && id in s.table && x in Replay(s.table[id])
  }

  // ------------------------------------------------------------------------------------
  // The order
  // ------------------------------------------------------------------------------------

  lemma {:induction false} InsertedAfterAt(order: seq<NodeId>, i: nat, newId: NodeId)
    requires i < |order| && forall j :: 0 <= j < i ==> order[j] != order[i]
    ensures InsertedAfter(order, order[i], newId) == order[..i + 1] + [newId] + order[i + 1..]
  {
    if i > 0 {
      assert order[1..][i - 1] == order[i] && order[0] != order[i];
      InsertedAfterAt(order[1..], i - 1, newId);
      ConsPieces(order, i, [newId]);
    }
  }

  lemma ConsPieces<T>(s: seq<T>, i: nat, m: seq<T>)
    requires 0 < i < |s|
    ensures [s[0]] + (s[1..][..i] + m + s[1..][i..]) == s[..i + 1] + m + s[i + 1..]
    ensures [s[0]] + (s[1..][..i - 1] + s[1..][i..]) == s[..i] + s[i + 1..]
  {
    assert s[1..][..i] == s[1..i + 1] && s[1..][i..] == s[i + 1..] && s[1..][..i - 1] == s[1..i];
    assert [s[0]] + s[1..i + 1] == s[..i + 1] && [s[0]] + s[1..i] == s[..i];
  }

  lemma {:induction false} WithoutAt(order: seq<NodeId>, i: nat)
    requires i < |order| && forall j :: 0 <= j < i ==> order[j] != order[i]
    ensures Without(order, order[i]) == order[..i] + order[i + 1..]
  {
    if i > 0 {
      assert order[1..][i - 1] == order[i] && order[0] != order[i];
      WithoutAt(order[1..], i - 1);
      ConsPieces(order, i, []);
    }
  }

  /** A leaf is replaced by one with the same bounds. */
  lemma LinkedReplace(table: map<NodeId, Chain>, order: seq<NodeId>, id: NodeId, c: Chain)
    requires Linked(table, order) && id in table && Live(c) && LowOf(c) == LowOf(table[id]) && HighOf(c) == HighOf(table[id])
    ensures Linked(table[id := c], order)
  {
    hide Live, LowOf, HighOf;
  }

  /** A node outside the order changes. */
  lemma LinkedOutside(table: map<NodeId, Chain>, order: seq<NodeId>, table': map<NodeId, Chain>)
    requires Linked(table, order) && forall id :: id in order ==> id in table' && table'[id] == table[id]
    ensures Linked(table', order)
  {
    hide Live, LowOf, HighOf;
  }

  /** A leaf is replaced by two. */
  lemma LinkedSplit(table: map<NodeId, Chain>, order: seq<NodeId>, i: nat, newId: NodeId, left: Chain, right: Chain)
    requires Linked(table, order) && i < |order| && newId in table && newId !in order && table[newId] == right
    requires Live(left) && Live(right) && LowOf(left) == LowOf(table[order[i]]) && HighOf(right) == HighOf(table[order[i]])
    requires Meets(left, newId, right)
    ensures Linked(table[order[i] := left], order[..i + 1] + [newId] + order[i + 1..])
  {
    hide Linked;
    var table' := table[order[i] := left];
    var order' := order[..i + 1] + [newId] + order[i + 1..];
    assert forall j :: 0 <= j < |order'| ==> order'[j] == if j <= i then order[j] else if j == i + 1 then newId else order[j - 1];
    LinkedFacts(table, order);
    hide Live, LowOf, HighOf, Meets;
    forall j | 0 <= j < |order'|
      ensures order'[j] in table' && Live(table'[order'[j]])
    {
    }
    SplitDistinct(order, i, newId, order');
    forall j | 0 <= j < |order'| - 1
      ensures Meets(table'[order'[j]], order'[j + 1], table'[order'[j + 1]])
    {
      SplitMeets(table, order, i, newId, left, right, order', j);
    }
    LinkedWhen(table', order');
  }

  lemma LinkedFacts(table: map<NodeId, Chain>, order: seq<NodeId>)
    requires Linked(table, order)
    ensures |order| > 0 && (forall i :: 0 <= i < |order| ==> order[i] in table && Live(table[order[i]]))
    ensures forall i, j :: 0 <= i < j < |order| ==> order[i] != order[j]
    ensures LowOf(table[order[0]]) == NegInf && HighOf(table[order[|order| - 1]]) == PosInf
    ensures forall i :: 0 <= i < |order| - 1 ==> Meets(table[order[i]], order[i + 1], table[order[i + 1]])
  {
  }

  lemma LinkedWhen(table: map<NodeId, Chain>, order: seq<NodeId>)
    requires |order| > 0 && (forall i :: 0 <= i < |order| ==> order[i] in table && Live(table[order[i]]))
    requires forall i, j :: 0 <= i < j < |order| ==> order[i] != order[j]
    requires LowOf(table[order[0]]) == NegInf && HighOf(table[order[|order| - 1]]) == PosInf
    requires forall i :: 0 <= i < |order| - 1 ==> Meets(table[order[i]], order[i + 1], table[order[i + 1]])
    ensures Linked(table, order)
  {
    hide Live, LowOf, HighOf, Meets;
  }

  lemma SplitDistinct(order: seq<NodeId>, i: nat, newId: NodeId, order': seq<NodeId>)
    requires i < |order| && newId !in order && order' == order[..i + 1] + [newId] + order[i + 1..]
    requires forall j, k :: 0 <= j < k < |order| ==> order[j] != order[k]
    ensures forall j, k :: 0 <= j < k < |order'| ==> order'[j] != order'[k]
  {
    forall j, k | 0 <= j < k < |order'|
      ensures order'[j] != order'[k]
    {
      if j == i + 1 { assert order'[k] == order[k - 1]; } else if k == i + 1 { assert order'[j] == order[j]; }
    }
  }

  lemma SplitMeets(table: map<NodeId, Chain>, order: seq<NodeId>, i: nat, newId: NodeId, left: Chain, right: Chain, order': seq<NodeId>, j: nat)
    requires i < |order| && newId in table && newId !in order && table[newId] == right
    requires order' == order[..i + 1] + [newId] + order[i + 1..] && j < |order'| - 1
    requires forall j :: 0 <= j < |order| ==> order[j] in table
    requires forall j, k :: 0 <= j < k < |order| ==> order[j] != order[k]
    requires forall j :: 0 <= j < |order| - 1 ==> Meets(table[order[j]], order[j + 1], table[order[j + 1]])
    requires LowOf(left) == LowOf(table[order[i]]) && HighOf(right) == HighOf(table[order[i]]) && Meets(left, newId, right)
    ensures var table' := table[order[i] := left];
            order'[j] in table' && order'[j + 1] in table' && Meets(table'[order'[j]], order'[j + 1], table'[order'[j + 1]])
  {
    hide LowOf, HighOf;
    if j < i {
      assert order'[j] == order[j] && order'[j + 1] == order[j + 1];
    } else if j == i {
      assert order'[j] == order[i] && order'[j + 1] == newId;
    } else {
      assert order'[j + 1] == order[j] && (j > i + 1 ==> order'[j] == order[j - 1]);
      assert j > i + 1 ==> Meets(table[order[j - 1]], order[j - 1 + 1], table[order[j]]);
    }
  }

  /** Two neighbouring leaves are replaced by one. */
  lemma LinkedMerge(table: map<NodeId, Chain>, order: seq<NodeId>, i: nat, c: Chain)
    requires Linked(table, order) && i + 1 < |order|
    requires Live(c) && LowOf(c) == LowOf(table[order[i]]) && HighOf(c) == HighOf(table[order[i + 1]])
    ensures Linked(table[order[i] := c], order[..i + 1] + order[i + 2..])
  {
    hide Linked;
    var table' := table[order[i] := c];
    var order' := order[..i + 1] + order[i + 2..];
    assert forall j :: 0 <= j < |order'| ==> order'[j] == if j <= i then order[j] else order[j + 1];
    LinkedFacts(table, order);
    hide Live, LowOf, HighOf, Meets;
    forall j | 0 <= j < |order'| - 1
      ensures Meets(table'[order'[j]], order'[j + 1], table'[order'[j + 1]])
    {
      MergeMeets(table, order, i, c, order', j);
    }
    LinkedWhen(table', order');
  }

  lemma MergeMeets(table: map<NodeId, Chain>, order: seq<NodeId>, i: nat, c: Chain, order': seq<NodeId>, j: nat)
    requires i + 1 < |order| && order' == order[..i + 1] + order[i + 2..] && j < |order'| - 1
    requires forall j :: 0 <= j < |order| ==> order[j] in table
    requires forall j, k :: 0 <= j < k < |order| ==> order[j] != order[k]
    requires forall j :: 0 <= j < |order| - 1 ==> Meets(table[order[j]], order[j + 1], table[order[j + 1]])
    requires LowOf(c) == LowOf(table[order[i]]) && HighOf(c) == HighOf(table[order[i + 1]])
    ensures var table' := table[order[i] := c];
            order'[j] in table' && order'[j + 1] in table' && Meets(table'[order'[j]], order'[j + 1], table'[order'[j + 1]])
  {
    hide LowOf, HighOf;
    if j < i {
      assert order'[j] == order[j] && order'[j + 1] == order[j + 1];
    } else {
      assert order'[j + 1] == order[j + 2] && (j > i ==> order'[j] == order[j + 1]);
      assert Meets(table[order[j + 1]], order[j + 1 + 1], table[order[j + 1 + 1]]);
    }
  }

  // ------------------------------------------------------------------------------------
  // Ranges
  // ------------------------------------------------------------------------------------

  /** Ranges go up along the order. */
  lemma {:induction false} RangesAscend(table: map<NodeId, Chain>, order: seq<NodeId>, i: nat, j: nat)
    requires Linked(table, order) && i < j < |order|
    ensures HighOf(table[order[i]]).HighAt? && LowOf(table[order[j]]).LowAt?
    ensures HighOf(table[order[i]]).key <= LowOf(table[order[j]]).key
    decreases j - i
  {
    hide WellFormed, LowOf, HighOf;
    if j == i + 1 {
      assert Meets(table[order[i]], order[j], table[order[j]]);
    } else {
      RangesAscend(table, order, i, j - 1);
      assert Meets(table[order[j - 1]], order[j - 1 + 1], table[order[j]]);
      assert Live(table[order[j - 1]]);
    }
  }

  /** The ranges of the leaves cover all keys. */
  lemma {:induction false} RangesCover(table: map<NodeId, Chain>, order: seq<NodeId>, k: int, n: nat) returns (i: nat)
    requires Linked(table, order) && n < |order| && AboveLow(k, LowOf(table[order[|order| - 1 - n]]))
    ensures i < |order| && InRange(k, LowOf(table[order[i]]), HighOf(table[order[i]]))
    decreases n
  {
    hide Live, LowOf, HighOf;
    i := |order| - 1 - n;
    if !BelowHigh(k, HighOf(table[order[i]])) {
      assert Meets(table[order[i]], order[i + 1], table[order[i + 1]]);
      i := RangesCover(table, order, k, n - 1);
    }
  }

  /** Every key belongs to exactly one leaf of the order. */
  lemma RangesPartition(s: State, k: int)
    requires Inv(s)
    ensures exists i :: 0 <= i < |s.order| && InRange(k, LowOf(s.table[s.order[i]]), HighOf(s.table[s.order[i]]))
    ensures forall i, j :: 0 <= i < j < |s.order| ==>
      !(InRange(k, LowOf(s.table[s.order[i]]), HighOf(s.table[s.order[i]])) && InRange(k, LowOf(s.table[s.order[j]]), HighOf(s.table[s.order[j]])))
  {
    hide PendingFormed, Settled, Live, LowOf, HighOf;
    var i := RangesCover(s.table, s.order, k, |s.order| - 1);
    forall i, j | 0 <= i < j < |s.order|
      ensures !(InRange(k, LowOf(s.table[s.order[i]]), HighOf(s.table[s.order[i]])) && InRange(k, LowOf(s.table[s.order[j]]), HighOf(s.table[s.order[j]])))
    {
      RangesAscend(s.table, s.order, i, j);
    }
  }

  /** The leaf whose range contains the key decides alone whether an item with it is stored. */
  lemma LeafDecides(s: State, i: nat, x: Item)
    requires Linked(s.table, s.order) && i < |s.order|
    requires InRange(x.key, LowOf(s.table[s.order[i]]), HighOf(s.table[s.order[i]]))
    ensures Stored(s, x) <==> x in Replay(s.table[s.order[i]])
  {
    hide LowOf, HighOf, Replay;
    if Stored(s, x) {
      var id :| id in s.order && id in s.table && x in Replay(s.table[id]);
      var j :| 0 <= j < |s.order| && s.order[j] == id;
      LiveRange(s.table[id], x);
      if i < j { RangesAscend(s.table, s.order, i, j); }
      if j < i { RangesAscend(s.table, s.order, j, i); }
    }
  }

  lemma LiveRange(c: Chain, x: Item)
    requires WellFormed(c) && x in Replay(c)
    ensures InRange(x.key, LowOf(c), HighOf(c))
  {
    ReplayInRange(c, x);
  }

  // ------------------------------------------------------------------------------------
  // What each step keeps and changes
  // ------------------------------------------------------------------------------------

  /** The item is stored in another leaf of the order. */
  ghost predicate Elsewhere(s: State, i: nat, x: Item)
    requires i < |s.order|
  {
    exists j :: 0 <= j < |s.order| && j != i && s.order[j] in s.table && x in Replay(s.table[s.order[j]])
  }

  lemma StoredHereOrElsewhere(s: State, i: nat, x: Item)
    requires i < |s.order| && s.order[i] in s.table
    ensures Stored(s, x) <==> x in Replay(s.table[s.order[i]]) || Elsewhere(s, i, x)
  {
    hide Replay;
    if Stored(s, x) {
      var id :| id in s.order && id in s.table && x in Replay(s.table[id]);
      var j :| 0 <= j < |s.order| && s.order[j] == id;
    }
  }

  /** A leaf of the order gets a new chain with the same bounds. */
  lemma ReplaceStep(s: State, i: nat, c: Chain)
    requires Inv(s) && i < |s.order| && s.order[i] in s.table && !s.table[s.order[i]].Remove?
    requires Live(c) && LowOf(c) == LowOf(s.table[s.order[i]]) && HighOf(c) == HighOf(s.table[s.order[i]])
    ensures Inv(Install(s, s.order[i], c))
    ensures forall x :: Stored(Install(s, s.order[i], c), x) <==> x in Replay(c) || Elsewhere(s, i, x)
  {
    hide *;
    var id := s.order[i];
    var s' := Install(s, id, c);
    InvParts(s);
    InvParts(s');
    InstallIs(s, id, c);
    LinkedReplace(s.table, s.order, id, c);
    LinkedFacts(s.table, s.order);
    PendingOutside(s);
    SettledPlaces(s);
    PendingKept(s, s');
    SettledInstall(s, s', id, c);
    forall x
      ensures Stored(s', x) <==> x in Replay(c) || Elsewhere(s, i, x)
    {
      StoredHereOrElsewhere(s', i, x);
      SameElsewhere(s, s', i, x);
    }
  }

  lemma InvParts(s: State)
    ensures Inv(s) <==> Linked(s.table, s.order) && PendingFormed(s) && Settled(s)
  {
    hide Linked, PendingFormed, Settled;
  }

  lemma InstallIs(s: State, id: NodeId, c: Chain)
    ensures Install(s, id, c) == s.(table := s.table[id := c], seen := s.seen + {Snapshot(id, c)})
  {
  }

  lemma PendingOutside(s: State)
    requires PendingFormed(s)
    ensures forall n :: n in s.pending ==> n in s.table && n !in s.order
  {
    hide Live, SplitsLeaf;
  }

  lemma SettledPlaces(s: State)
    requires Settled(s)
    ensures forall id :: id in s.table ==> id in s.order || id in s.pending || s.table[id].Remove?
  {
    hide Live;
  }

  lemma PendingKept(s: State, s': State)
    requires PendingFormed(s) && forall n :: n in s'.pending ==> n in s.pending && s'.pending[n] == s.pending[n] && n !in s'.order
    requires forall n :: n in s'.pending ==> n in s'.table && s'.table[n] == s.table[n]
    ensures PendingFormed(s')
  {
    hide Live, SplitsLeaf, Sibling;
  }

  /** Installing over a node that is not removed, without leaving nodes behind. */
  lemma SettledInstall(s: State, s': State, id: NodeId, c: Chain)
    requires Settled(s) && s'.table == s.table[id := c] && s'.seen == s.seen + {Snapshot(id, c)}
    requires id in s.table ==> !s.table[id].Remove?
    requires c.Leaf? ==> Live(c)
    requires forall n :: n in s'.table ==> n in s'.order || n in s'.pending || s'.table[n].Remove?
    ensures Settled(s')
  {
    hide Live;
  }

  lemma SameElsewhere(s: State, s': State, i: nat, x: Item)
    requires i < |s.order| && s'.order == s.order && forall j, k :: 0 <= j < k < |s.order| ==> s.order[j] != s.order[k]
    requires forall j :: 0 <= j < |s.order| && j != i ==> s.order[j] in s.table && s.order[j] in s'.table && s'.table[s.order[j]] == s.table[s.order[j]]
    ensures Elsewhere(s', i, x) <==> Elsewhere(s, i, x)
  {
    hide Replay;
  }

  /** An item of a leaf's range is in no other leaf. */
  lemma NotElsewhere(s: State, i: nat, x: Item)
    requires Linked(s.table, s.order) && i < |s.order|
    requires InRange(x.key, LowOf(s.table[s.order[i]]), HighOf(s.table[s.order[i]]))
    ensures !Elsewhere(s, i, x)
  {
    LinkedFacts(s.table, s.order);
    hide Linked, Replay, LowOf, HighOf;
    forall j | 0 <= j < |s.order| && j != i
      ensures x !in Replay(s.table[s.order[j]])
    {
      if x in Replay(s.table[s.order[j]]) {
        assert Live(s.table[s.order[j]]);
        LiveRange(s.table[s.order[j]], x);
        if i < j { RangesAscend(s.table, s.order, i, j); } else { RangesAscend(s.table, s.order, j, i); }
      }
    }
  }

  lemma InsertStep(s: State, step: Step)
    requires Inv(s) && step.InsertItem? && Enabled(s, step)
    ensures Inv(After(s, step)) && !Stored(s, step.item)
    ensures forall x :: Stored(After(s, step), x) <==> Stored(s, x) || x == step.item
  {
    hide *;
    EnabledItem(s, step);
    var i := InOrder(s, step.id);
    var c := s.table[step.id];
    var c' := Insert(step.item, step.index, step.exists_, c);
    ItemDelta(c, step.item, step.index, step.exists_);
    ReplaceStep(s, i, c');
    NotElsewhere(s, i, step.item);
    StoredHereOrElsewhere(s, i, step.item);
    forall x
      ensures Stored(After(s, step), x) <==> Stored(s, x) || x == step.item
    {
      StoredHereOrElsewhere(s, i, x);
    }
  }

  lemma DeleteStep(s: State, step: Step)
    requires Inv(s) && step.DeleteItem? && Enabled(s, step)
    ensures Inv(After(s, step)) && Stored(s, step.item)
    ensures forall x :: Stored(After(s, step), x) <==> Stored(s, x) && x != step.item
  {
    hide *;
    EnabledItem(s, step);
    var i := InOrder(s, step.id);
    var c := s.table[step.id];
    var c' := Delete(step.item, step.index, step.exists_, c);
    ItemDelta(c, step.item, step.index, step.exists_);
    ReplaceStep(s, i, c');
    NotElsewhere(s, i, step.item);
    StoredHereOrElsewhere(s, i, step.item);
    forall x
      ensures Stored(After(s, step), x) <==> Stored(s, x) && x != step.item
    {
      StoredHereOrElsewhere(s, i, x);
    }
  }

  lemma ConsolidateStep(s: State, step: Step)
    requires Inv(s) && step.Consolidate? && Enabled(s, step)
    ensures Inv(After(s, step)) && forall x :: Stored(After(s, step), x) <==> Stored(s, x)
  {
    hide *;
    EnabledConsolidate(s, step);
    var i := InOrder(s, step.id);
    ReplaceStep(s, i, step.leaf);
    forall x
      ensures Stored(After(s, step), x) <==> Stored(s, x)
    {
      StoredHereOrElsewhere(s, i, x);
    }
  }

  lemma RemoveStep(s: State, step: Step)
    requires Inv(s) && step.InstallRemove? && Enabled(s, step)
    ensures Inv(After(s, step)) && forall x :: Stored(After(s, step), x) <==> Stored(s, x)
  {
    hide *;
    EnabledRemove(s, step);
    var i := InOrder(s, step.id);
    var c := s.table[step.id];
    RemoveDelta(c, step.id);
    ReplaceStep(s, i, Remove(step.id, c));
    forall x
      ensures Stored(After(s, step), x) <==> Stored(s, x)
    {
      StoredHereOrElsewhere(s, i, x);
    }
  }

  /** A reachable node that is not removed is in the order, and well formed. */
  lemma InOrder(s: State, id: NodeId) returns (i: nat)
    requires Inv(s) && id in s.table && id !in s.pending && !s.table[id].Remove?
    ensures i < |s.order| && s.order[i] == id && Linked(s.table, s.order) && Live(s.table[id])
  {
    hide *;
    InvParts(s);
    SettledPlaces(s);
    LinkedFacts(s.table, s.order);
    i :| i < |s.order| && s.order[i] == id;
  }

  lemma EnabledItem(s: State, step: Step)
    requires Enabled(s, step) && (step.InsertItem? || step.DeleteItem?)
    ensures step.id in s.table && step.id !in s.pending && !s.table[step.id].Remove?
    ensures InRange(step.item.key, LowOf(s.table[step.id]), HighOf(s.table[step.id]))
    ensures step.item in Replay(s.table[step.id]) <==> step.DeleteItem?
    ensures Placed(BaseFor(s.table[step.id], step.item.key).items, step.item, step.index, step.exists_)
    ensures step.InsertItem? ==> After(s, step) == Install(s, step.id, Insert(step.item, step.index, step.exists_, s.table[step.id]))
    ensures step.DeleteItem? ==> After(s, step) == Install(s, step.id, Delete(step.item, step.index, step.exists_, s.table[step.id]))
  {
    hide Install, Replay, Placed, BaseFor;
  }

  lemma EnabledConsolidate(s: State, step: Step)
    requires Enabled(s, step) && step.Consolidate?
    requires Inv(s)
    ensures step.id in s.table && step.id !in s.pending && !s.table[step.id].Remove?
    ensures LowOf(step.leaf) == LowOf(s.table[step.id]) && HighOf(step.leaf) == HighOf(s.table[step.id])
    ensures Replay(step.leaf) == Replay(s.table[step.id]) && Live(step.leaf)
    ensures After(s, step) == Install(s, step.id, step.leaf)
  {
    hide Install, Replay, Inv, WellFormed;
    var i := InOrder(s, step.id);
  }

  lemma EnabledRemove(s: State, step: Step)
    requires Enabled(s, step) && step.InstallRemove?
    ensures step.id in s.table && step.id !in s.pending && s.table[step.id].Leaf?
    ensures After(s, step) == Install(s, step.id, Remove(step.id, s.table[step.id]))
  {
    hide Install;
  }

  lemma ItemDelta(c: Chain, item: Item, index: nat, ex: bool)
    requires !c.Remove? && InRange(item.key, LowOf(c), HighOf(c)) && Placed(BaseFor(c, item.key).items, item, index, ex)
    ensures Live(c) && item !in Replay(c) ==> Live(Insert(item, index, ex, c))
    ensures Live(c) && item in Replay(c) ==> Live(Delete(item, index, ex, c))
    ensures LowOf(Insert(item, index, ex, c)) == LowOf(c) == LowOf(Delete(item, index, ex, c))
    ensures HighOf(Insert(item, index, ex, c)) == HighOf(c) == HighOf(Delete(item, index, ex, c))
    ensures forall x :: x in Replay(Insert(item, index, ex, c)) <==> x in Replay(c) || x == item
    ensures forall x :: x in Replay(Delete(item, index, ex, c)) <==> x in Replay(c) && x != item
  {
    hide Placed, InRange;
  }

  lemma RemoveDelta(c: Chain, id: NodeId)
    requires c.Leaf? && Live(c)
    ensures Live(Remove(id, c)) && LowOf(Remove(id, c)) == LowOf(c) && HighOf(Remove(id, c)) == HighOf(c)
    ensures Replay(Remove(id, c)) == Replay(c)
  {
  }

  lemma PrepareStep(s: State, step: Step)
    requires Inv(s) && step.PrepareSplit? && Enabled(s, step)
    ensures Inv(After(s, step)) && forall x :: Stored(After(s, step), x) <==> Stored(s, x)
  {
    var p := Pending(step.id, step.base, step.key, step.count);
    var s' := After(s, step);
    EnabledPrepare(s, step);
    LinkedFacts(s.table, s.order);
    PendingOutside(s);
    hide Linked, Live, SplitsLeaf, Sibling, Replay, Enabled, After, PendingFormed, Settled;
    LinkedOutside(s.table, s.order, s'.table);
    PendingMore(s, s', step.newId);
    SettledPlaces(s);
    SettledInstall(s, s', step.newId, Sibling(p));
    forall x
      ensures Stored(s', x) <==> Stored(s, x)
    {
      SameStored(s, s', x);
    }
  }

  lemma EnabledPrepare(s: State, step: Step)
    requires Inv(s) && step.PrepareSplit? && Enabled(s, step)
    ensures var p := Pending(step.id, step.base, step.key, step.count);
            && p.base.Leaf? && Live(p.base) && SplitsLeaf(p.base.items, p.key, p.count) && step.newId !in s.table
            && 0 < p.count < |p.base.items| && Sibling(p).Leaf? && Live(Sibling(p)) && LowOf(Sibling(p)) == LowAt(p.key) && HighOf(Sibling(p)) == p.base.high
            && After(s, step) == s.(table := s.table[step.newId := Sibling(p)], seen := s.seen + {Snapshot(step.newId, Sibling(p))},
                                    pending := s.pending[step.newId := p])
  {
    hide Linked, PendingFormed;
    var p := Pending(step.id, step.base, step.key, step.count);
    assert Snapshot(step.id, step.base).chain == step.base;
    SiblingLive(p);
  }

  lemma SiblingLive(p: Pending)
    requires p.base.Leaf? && Live(p.base) && SplitsLeaf(p.base.items, p.key, p.count)
    ensures 0 < p.count < |p.base.items|
    ensures Live(Sibling(p)) && LowOf(Sibling(p)) == LowAt(p.key) && HighOf(Sibling(p)) == p.base.high
    ensures forall id :: var left := Split(p.key, id, p.count, p.base);
      Live(left) && LowOf(left) == LowOf(p.base) && Meets(left, id, Sibling(p)) && Replay(left) + Replay(Sibling(p)) == Replay(p.base)
  {
    forall id
      ensures var left := Split(p.key, id, p.count, p.base);
              Live(left) && LowOf(left) == LowOf(p.base) && Meets(left, id, Sibling(p)) && Replay(left) + Replay(Sibling(p)) == Replay(p.base)
    {
      LeafSplit.SplitDivides(p.base, p.key, p.count, id);
      KeyAboveLow(p.base, p.key, p.count);
    }
    LeafSplit.SplitDivides(p.base, p.key, p.count, 0);
  }

  lemma KeyAboveLow(c: Chain, k: int, n: int)
    requires WellFormed(c) && c.Leaf? && SplitsLeaf(c.items, k, n)
    ensures c.low.LowAt? ==> c.low.key < k
    ensures BelowHigh(k, c.high)
  {
    assert InRange(c.items[|c.items| - n - 1].key, c.low, c.high);
    assert InRange(c.items[|c.items| - n].key, c.low, c.high);
  }

  lemma PendingMore(s: State, s': State, n: NodeId)
    requires PendingFormed(s) && n !in s.table && n !in s.order && s'.order == s.order && n in s'.pending && n in s'.table
    requires s'.pending == s.pending[n := s'.pending[n]] && s'.table == s.table[n := s'.table[n]]
    requires var p := s'.pending[n];
             p.base.Leaf? && Live(p.base) && SplitsLeaf(p.base.items, p.key, p.count) && s'.table[n] == Sibling(p)
    ensures PendingFormed(s')
  {
    hide Live, SplitsLeaf, Sibling;
  }

  lemma SameStored(s: State, s': State, x: Item)
    requires s'.order == s.order && forall id :: id in s.order ==> id in s.table && id in s'.table && s'.table[id] == s.table[id]
    ensures Stored(s', x) <==> Stored(s, x)
  {
    hide Replay;
  }

  lemma DropStep(s: State, step: Step)
    requires Inv(s) && step.DropSplit? && Enabled(s, step)
    ensures Inv(After(s, step)) && forall x :: Stored(After(s, step), x) <==> Stored(s, x)
  {
    hide *;
    var s' := After(s, step);
    InvParts(s);
    EnabledDrop(s, step);
    LinkedFacts(s.table, s.order);
    PendingOutside(s);
    PendingNotRemoved(s, step.newId);
    LinkedOutside(s.table, s.order, s'.table);
    PendingKept(s, s');
    SettledDrop(s, s', step.newId);
    InvParts(s');
    forall x
      ensures Stored(s', x) <==> Stored(s, x)
    {
      SameStored(s, s', x);
    }
  }

  lemma EnabledDrop(s: State, step: Step)
    requires Enabled(s, step) && step.DropSplit?
    ensures step.newId in s.pending
    ensures After(s, step) == s.(table := s.table - {step.newId}, pending := s.pending - {step.newId})
  {
  }

  lemma SettledDrop(s: State, s': State, n: NodeId)
    requires Settled(s) && n in s.pending && n in s.table && !s.table[n].Remove?
    requires s' == s.(table := s.table - {n}, pending := s.pending - {n})
    ensures Settled(s')
  {
    hide Live;
  }

  lemma PendingNotRemoved(s: State, n: NodeId)
    requires PendingFormed(s) && n in s.pending
    ensures n in s.table && !s.table[n].Remove?
  {
    hide Live, SplitsLeaf;
  }

  lemma SplitStep(s: State, step: Step)
    requires Inv(s) && step.InstallSplit? && Enabled(s, step)
    ensures Inv(After(s, step)) && forall x :: Stored(After(s, step), x) <==> Stored(s, x)
  {
    hide *;
    InvParts(s);
    EnabledSplit(s, step);
    var p, n := s.pending[step.newId], step.newId;
    var i := InOrder(s, p.left);
    SiblingLive(p);
    var left := Split(p.key, n, p.count, p.base);
    var s' := After(s, step);
    LinkedFacts(s.table, s.order);
    PendingOutside(s);
    InsertedAfterAt(s.order, i, n);
    OrderMore(s.order, i, n);
    LeafBounds(p.base);
    LinkedSplit(s.table, s.order, i, n, left, Sibling(p));
    PendingKept(s, s');
    SettledPlaces(s);
    SettledInstall(s, s', p.left, left);
    InvParts(s');
    forall x
      ensures Stored(s', x) <==> Stored(s, x)
    {
      StoredHereOrElsewhere(s, i, x);
      SplitStored(s, s', i, n, x);
    }
  }

  lemma OrderMore(order: seq<NodeId>, i: nat, n: NodeId)
    requires i < |order|
    ensures forall id :: id in order[..i + 1] + [n] + order[i + 1..] <==> id in order || id == n
  {
    assert order == order[..i + 1] + order[i + 1..];
  }

  lemma LeafBounds(c: Chain)
    requires c.Leaf?
    ensures LowOf(c) == c.low && HighOf(c) == c.high
  {
  }

  lemma EnabledSplit(s: State, step: Step)
    requires PendingFormed(s) && step.InstallSplit? && Enabled(s, step)
    ensures step.newId in s.pending
    ensures var p := s.pending[step.newId];
            && p.left in s.table && p.left !in s.pending && s.table[p.left] == p.base && p.base.Leaf?
            && Live(p.base) && SplitsLeaf(p.base.items, p.key, p.count) && step.newId in s.table && s.table[step.newId] == Sibling(p)
            && After(s, step) == State(s.table[p.left := Split(p.key, step.newId, p.count, p.base)], InsertedAfter(s.order, p.left, step.newId),
                                       s.pending - {step.newId}, s.seen + {Snapshot(p.left, Split(p.key, step.newId, p.count, p.base))})
  {
    hide Live, SplitsLeaf, Sibling, InsertedAfter;
  }

  lemma SplitStored(s: State, s': State, i: nat, n: NodeId, x: Item)
    requires i < |s.order| && n !in s.order && n in s'.table && s.order[i] in s'.table
    requires forall j, k :: 0 <= j < k < |s.order| ==> s.order[j] != s.order[k]
    requires s'.order == s.order[..i + 1] + [n] + s.order[i + 1..]
    requires forall j :: 0 <= j < |s.order| && j != i ==> s.order[j] in s.table && s.order[j] in s'.table && s'.table[s.order[j]] == s.table[s.order[j]]
    ensures Stored(s', x) <==> x in Replay(s'.table[s.order[i]]) || x in Replay(s'.table[n]) || Elsewhere(s, i, x)
  {
    hide Replay;
    if Stored(s', x) {
      var id :| id in s'.order && id in s'.table && x in Replay(s'.table[id]);
      assert id in s.order || id == n;
      if id in s.order {
        var j :| 0 <= j < |s.order| && s.order[j] == id;
      }
    }
    assert s.order[i] in s'.order && n in s'.order by {
      assert s'.order[i] == s.order[i] && s'.order[i + 1] == n;
    }
    if Elsewhere(s, i, x) {
      var j :| 0 <= j < |s.order| && j != i && s.order[j] in s.table && x in Replay(s.table[s.order[j]]);
      assert s'.order[if j < i then j else j + 1] == s.order[j];
    }
  }

  lemma MergeStep(s: State, step: Step)
    requires Inv(s) && step.InstallMerge? && Enabled(s, step)
    ensures Inv(After(s, step)) && forall x :: Stored(After(s, step), x) <==> Stored(s, x)
  {
    hide *;
    InvParts(s);
    EnabledMerge(s, step);
    var c := s.table[step.id];
    var i := InOrder(s, step.id);
    LinkedFacts(s.table, s.order);
    NextInOrder(s, i);
    MergeChain(c, step.removed, step.right, s.table[s.order[i + 1]]);
    var c' := Merge(HighOf(c).key, step.removed, step.right, c);
    var s' := After(s, step);
    PendingOutside(s);
    WithoutAt(s.order, i + 1);
    LinkedMerge(s.table, s.order, i, c');
    OrderLess(s.order, i);
    PendingKept(s, s');
    SettledPlaces(s);
    SettledInstall(s, s', step.id, c');
    InvParts(s');
    forall x
      ensures Stored(s', x) <==> Stored(s, x)
    {
      MergeStored(s, s', i, x);
    }
  }

  lemma EnabledMerge(s: State, step: Step)
    requires Settled(s) && step.InstallMerge? && Enabled(s, step)
    ensures step.id in s.table && step.id !in s.pending && !s.table[step.id].Remove?
    ensures step.removed in s.table && s.table[step.removed] == Remove(step.removed, step.right)
    ensures HighOf(s.table[step.id]) == HighAt(HighOf(s.table[step.id]).key, step.removed)
    ensures var c' := Merge(HighOf(s.table[step.id]).key, step.removed, step.right, s.table[step.id]);
            After(s, step) == State(s.table[step.id := c'], Without(s.order, step.removed), s.pending, s.seen + {Snapshot(step.id, c')})
  {
    hide Live, Without;
    assert Snapshot(step.removed, Remove(step.removed, step.right)).chain.Remove?;
  }

  lemma NextInOrder(s: State, i: nat)
    requires Linked(s.table, s.order) && i < |s.order| && HighOf(s.table[s.order[i]]).HighAt?
    ensures i + 1 < |s.order| && s.order[i + 1] == HighOf(s.table[s.order[i]]).next
    ensures Meets(s.table[s.order[i]], s.order[i + 1], s.table[s.order[i + 1]])
  {
    hide Live, LowOf, HighOf;
  }

  lemma MergeChain(c: Chain, removed: NodeId, right: Chain, r: Chain)
    requires Live(c) && !c.Remove? && r == Remove(removed, right) && Live(r) && Meets(c, removed, r) && HighOf(c).HighAt?
    ensures var c' := Merge(HighOf(c).key, removed, right, c);
            && Live(c') && LowOf(c') == LowOf(c) && HighOf(c') == HighOf(r) && Replay(c') == Replay(c) + Replay(r)
  {
  }

  lemma OrderLess(order: seq<NodeId>, i: nat)
    requires i + 1 < |order|
    ensures var order' := order[..i + 1] + order[i + 2..];
            && (forall id :: id in order' ==> id in order)
            && (forall id :: id in order && id != order[i + 1] ==> id in order')
  {
    var order' := order[..i + 1] + order[i + 2..];
    forall id | id in order && id != order[i + 1]
      ensures id in order'
    {
      var j :| 0 <= j < |order| && order[j] == id;
      assert order'[if j <= i then j else j - 1] == id;
    }
  }

  lemma MergeStored(s: State, s': State, i: nat, x: Item)
    requires i + 1 < |s.order| && (forall j :: 0 <= j < |s.order| ==> s.order[j] in s.table)
    requires forall j, k :: 0 <= j < k < |s.order| ==> s.order[j] != s.order[k]
    requires s'.order == s.order[..i + 1] + s.order[i + 2..] && s.order[i] in s'.table && s'.table == s.table[s.order[i] := s'.table[s.order[i]]]
    requires Replay(s'.table[s.order[i]]) == Replay(s.table[s.order[i]]) + Replay(s.table[s.order[i + 1]])
    ensures Stored(s', x) <==> Stored(s, x)
  {
    hide Replay;
    OrderLess(s.order, i);
    assert s'.order[i] == s.order[i];
    if Stored(s', x) {
      var id :| id in s'.order && id in s'.table && x in Replay(s'.table[id]);
      if id == s.order[i] {
        assert s.order[i] in s.order && s.order[i + 1] in s.order;
      }
    }
    if Stored(s, x) {
      var id :| id in s.order && id in s.table && x in Replay(s.table[id]);
      if id == s.order[i] || id == s.order[i + 1] {
        assert s.order[i] in s'.order;
      } else {
        assert id in s'.order && s'.table[id] == s.table[id];
      }
    }
  }

  // ------------------------------------------------------------------------------------
  // Every run
  // ------------------------------------------------------------------------------------

  /** What one step does to the stored items: inserting adds its pair, deleting takes it away, all
      structure changes leave everything as it was. */
  ghost function Effect(items: set<Item>, step: Step): set<Item>
  {
    match step
    case InsertItem(_, item, _, _) => items + {item}
    case DeleteItem(_, item, _, _) => items - {item}
    case _ => items
  }

  ghost predicate Contains(s: State, items: set<Item>)
  {
    forall x :: Stored(s, x) <==> x in items
  }

  /** Every step keeps the invariant and changes the stored items by its effect alone; an inserted pair
      was not stored before, a deleted one was. */
  lemma StepKeeps(s: State, step: Step, items: set<Item>)
    requires Inv(s) && Enabled(s, step) && Contains(s, items)
    ensures Inv(After(s, step)) && Contains(After(s, step), Effect(items, step))
    ensures step.InsertItem? ==> step.item !in items
    ensures step.DeleteItem? ==> step.item in items
  {
    hide Inv, Enabled, After, Stored;
    match step
    case InsertItem(_, _, _, _) => InsertStep(s, step);
    case DeleteItem(_, _, _, _) => DeleteStep(s, step);
    case Consolidate(_, _) => ConsolidateStep(s, step);
    case PrepareSplit(_, _, _, _, _) => PrepareStep(s, step);
    case InstallSplit(_) => SplitStep(s, step);
    case DropSplit(_) => DropStep(s, step);
    case InstallRemove(_) => RemoveStep(s, step);
    case InstallMerge(_, _, _) => MergeStep(s, step);
  }

  /** The state after a run, if every step was enabled when it was taken. */
  ghost predicate Run(s: State, steps: seq<Step>, s': State)
    decreases |steps|
  {
    if steps == [] then s' == s else Enabled(s, steps[0]) && Run(After(s, steps[0]), steps[1..], s')
  }

  ghost function Effects(items: set<Item>, steps: seq<Step>): set<Item>
    decreases |steps|
  {
    if steps == [] then items else Effects(Effect(items, steps[0]), steps[1..])
  }

  lemma InitInv(s: State)
    requires Init(s)
    ensures Inv(s) && Contains(s, {})
  {
    var first :| s == State(map[first := Leaf(NegInf, PosInf, [])], [first], map[], {Snapshot(first, Leaf(NegInf, PosInf, []))});
    assert WellFormed(Leaf(NegInf, PosInf, []));
  }

  lemma {:induction false} RunKeeps(s: State, steps: seq<Step>, s': State, items: set<Item>)
    requires Inv(s) && Contains(s, items) && Run(s, steps, s')
    ensures Inv(s') && Contains(s', Effects(items, steps))
    decreases |steps|
  {
    hide Inv, Enabled, After, Contains;
    if steps != [] {
      StepKeeps(s, steps[0], items);
      RunKeeps(After(s, steps[0]), steps[1..], s', Effect(items, steps[0]));
    }
  }

  /** From the empty tree, whatever the threads do: the leaves partition the key space, and they hold
      exactly the pairs that were inserted and not deleted since. */
  lemma EveryRun(s: State, steps: seq<Step>, s': State)
    requires Init(s) && Run(s, steps, s')
    ensures Inv(s') && forall x :: Stored(s', x) <==> x in Effects({}, steps)
  {
    hide Inv, Enabled, After, Stored, Run, Effects, Init;
    InitInv(s);
    RunKeeps(s, steps, s', {});
  }

  /** In every reachable state a lookup in the leaf for a key answers for the whole tree. */
  lemma LookupAnswers(s: State, id: NodeId, key: int, value: int)
    requires Inv(s) && Reachable(s, id) && !s.table[id].Remove? && InRange(key, LowOf(s.table[id]), HighOf(s.table[id]))
    ensures Item(key, value) in Replay(s.table[id]) <==> Stored(s, Item(key, value))
  {
    var i := InOrder(s, id);
    LeafDecides(s, i, Item(key, value));
  }
}
