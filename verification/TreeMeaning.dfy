/** What the steps of the tree do to the separators of its inner nodes, and that what a thread computes
from a node may be installed. */
module TreeMeaning {
  import opened BwTypes
  import opened InnerChain
  import opened InnerSearch
  import opened TreeRouting
  import opened TreeKinds
  import L = LeafChain
  import LeafLevel
  import LeafSplit
  import LeafConsolidate
  import InnerConsolidate
  import TreeTraverse

  // ------------------------------------------------------------------------------------
  // The separators after a step
  // ------------------------------------------------------------------------------------

  /** Nothing but this inner node has changed, and it begins and ends where it did. */
  ghost predicate OnlyThere(t: State, t': State, id: NodeId)
  {
    && id in t.inners && id in t'.inners && t' == t.(inners := t.inners[id := t'.inners[id]], innerSeen := t'.innerSeen)
    && LowOf(t'.inners[id]) == LowOf(t.inners[id])
  }

  /** The node stands for what it stood for. */
  ghost predicate SameNode(t: State, t': State, id: NodeId)
  {
    && OnlyThere(t, t', id) && HighOf(t'.inners[id]) == HighOf(t.inners[id])
    && Seps(t'.inners[id]) == Seps(t.inners[id]) && LowIdOf(t'.inners[id]) == LowIdOf(t.inners[id])
  }

  /** Two neighbours hold between them the separators of one node, and the one between them. */
  ghost predicate Divide(whole: Inner, left: Inner, key: int, right: Inner)
  {
    && LowOf(left) == LowOf(whole) && LowOf(right) == LowAt(key) && HighOf(right) == HighOf(whole)
    && LowIdOf(left) == LowIdOf(whole)
    && Seps(whole) == Seps(left) + {Sep(key, LowIdOf(right))} + Seps(right)
    && (forall s :: s in Seps(left) ==> s.key < key) && (forall s :: s in Seps(right) ==> key < s.key)
  }

  /** One separator more, or all with one key gone. */
  ghost predicate OneMore(t: State, t': State, id: NodeId, s: Sep)
  {
    OnlyThere(t, t', id) && HighOf(t'.inners[id]) == HighOf(t.inners[id]) && Seps(t'.inners[id]) == Seps(t.inners[id]) + {s}
  }

  ghost predicate OneLess(t: State, t': State, id: NodeId, key: int)
  {
    && OnlyThere(t, t', id) && HighOf(t'.inners[id]) == HighOf(t.inners[id])
    && forall s :: s in Seps(t'.inners[id]) <==> s in Seps(t.inners[id]) && s.key != key
  }

  /** A sibling is in the table under a new NodeID, with the larger half of the items. */
  ghost predicate Prepared(t: State, t': State, base: Inner)
  {
    && t.nextId !in t.inners && t.nextId in t'.inners && t.nextId in t'.innerPending && t'.nextId == t.nextId + 1
    && t' == t.(inners := t.inners[t.nextId := t'.inners[t.nextId]], innerSeen := t'.innerSeen,
                innerPending := t.innerPending[t.nextId := t'.innerPending[t.nextId]], nextId := t'.nextId)
    && ItemCount(t'.inners[t.nextId]) == ItemCount(base) - ItemCount(base) / 2
  }

  /** The two nodes divide what the left one was, and are linked. */
  ghost predicate Divided(t: State, t': State, left: NodeId, newId: NodeId)
  {
    && left in t.inners && left in t'.inners && newId in t.inners && newId in t'.lows
    && t' == t.(inners := t.inners[left := t'.inners[left]], innerSeen := t'.innerSeen, innerPending := t.innerPending - {newId},
                lows := t.lows[newId := t'.lows[newId]])
    && HighOf(t'.inners[left]).HighAt? && HighOf(t'.inners[left]).next == newId
    && Divide(t.inners[left], t'.inners[left], HighOf(t'.inners[left]).key, t.inners[newId])
    && ItemCount(t'.inners[left]) + ItemCount(t.inners[newId]) == ItemCount(t.inners[left])
  }

  /** The node is united with the removed one to its right. */
  ghost predicate United(t: State, t': State, id: NodeId, removed: NodeId, right: Inner)
  {
    && OnlyThere(t, t', id) && HighOf(t.inners[id]).HighAt? && HighOf(t.inners[id]).next == removed
    && Divide(t'.inners[id], t.inners[id], HighOf(t.inners[id]).key, right)
    && ItemCount(t'.inners[id]) == ItemCount(t.inners[id]) + ItemCount(right)
  }

  /** There is a new root over the old one and its sibling. */
  ghost predicate Grown(t: State, t': State, key: int, sibling: NodeId)
  {
    && t.nextId !in t.inners && t.nextId in t'.inners
    && t' == t.(inners := t.inners[t.nextId := t'.inners[t.nextId]], innerSeen := t'.innerSeen, root := t.nextId,
                lows := t.lows[t.nextId := NegInf], nextId := t.nextId + 1)
    && LowIdOf(t'.inners[t.nextId]) == t.root && Seps(t'.inners[t.nextId]) == {Sep(key, sibling)}
    && LowOf(t'.inners[t.nextId]) == NegInf && HighOf(t'.inners[t.nextId]) == PosInf
  }

  /** What one step does: posting adds or removes one separator; consolidation, removal and abort nodes
      change none; a split divides the separators between two nodes and a merge unites them; a new root
      has the old one and its sibling below it. */
  ghost predicate Meaning(t: State, step: Step, t': State)
  {
    match step
    case OnLeaves(_) => t'.inners == t.inners && t'.innerSeen == t.innerSeen && t'.root == t.root && t'.innerPending == t.innerPending
    case PostInsert(id, _, key, newId, _, _) => OneMore(t, t', id, Sep(key, newId))
    case PostDelete(id, _, _, key, _, _, _) => OneLess(t, t', id, key)
    case ConsolidateInner(id, _) => SameNode(t, t', id) && t'.inners[id].Base?
    case RemoveInner(id) => SameNode(t, t', id) && t'.inners[id].Remove?
    case InstallAbort(id) => SameNode(t, t', id) && t'.inners[id].Abort?
    case RemoveAbort(id) => SameNode(t, t', id) && t.inners[id] == Abort(t'.inners[id])
    case PrepareInnerSplit(_, base) => Prepared(t, t', base)
    case InstallInnerSplit(newId) => newId in t.innerPending && Divided(t, t', t.innerPending[newId].left, newId)
    case DropInnerSplit(newId) => t' == t.(inners := t.inners - {newId}, innerPending := t.innerPending - {newId})
    case MergeInner(id, removed, right) => United(t, t', id, removed, right)
    case SplitRoot(key, sibling) => Grown(t, t', key, sibling)
  }

  lemma StepMeaning(t: State, step: Step)
    requires Inv(t) && Enabled(t, step)
    ensures Meaning(t, step, After(t, step))
  {
    hide Inv, Enabled, After, OneMore, OneLess, SameNode, Prepared, Divided, United, Grown;
    match step
    case OnLeaves(s) => EnabledOnLeaves(t, step);
    case PostInsert(id, _, _, _, _, _) => DataMeaning(t, step);
    case PostDelete(id, _, _, _, _, _, _) => DataMeaning(t, step);
    case ConsolidateInner(id, _) => PlainMeaning(t, step);
    case RemoveInner(id) => PlainMeaning(t, step);
    case InstallAbort(id) => PlainMeaning(t, step);
    case RemoveAbort(id) => PlainMeaning(t, step);
    case PrepareInnerSplit(_, _) => PrepareMeaning(t, step);
    case InstallInnerSplit(_) => SplitMeaning(t, step);
    case DropInnerSplit(_) => EnabledDrop(t, step);
    case MergeInner(_, _, _) => MergeMeaning(t, step);
    case SplitRoot(_, _) => RootMeaning(t, step);
  }

  lemma OnTop(t: State, id: NodeId, c: Inner)
    requires id in t.inners && LowOf(c) == LowOf(t.inners[id])
    ensures id in Install(t, id, c).inners && Install(t, id, c).inners[id] == c && OnlyThere(t, Install(t, id, c), id)
  {
    hide LowOf;
  }

  lemma DataMeaning(t: State, step: Step)
    requires Inv(t) && Enabled(t, step) && (step.PostInsert? || step.PostDelete?)
    ensures step.PostInsert? ==> OneMore(t, After(t, step), step.id, Sep(step.key, step.newId))
    ensures step.PostDelete? ==> OneLess(t, After(t, step), step.id, step.key)
  {
    hide *;
    EnabledPost(t, step);
    var c := t.inners[step.id];
    var c' := if step.PostInsert? then Insert(Sep(step.key, step.newId), step.next, step.loc, c)
              else Delete(Sep(step.key, step.removed), Sep(step.prevKey, step.child), step.next, step.loc, c);
    DataSepsAre(c');
    OnTop(t, step.id, c');
    DataIs(t, After(t, step), step.id, c');
  }

  lemma DataSepsAre(c: Inner)
    ensures !c.Base? && !c.Merge? && !c.Split? ==> LowOf(c) == LowOf(c.child) && HighOf(c) == HighOf(c.child) && LowIdOf(c) == LowIdOf(c.child)
    ensures c.Insert? ==> Seps(c) == Seps(c.child) + {c.item}
    ensures c.Delete? ==> forall s :: s in Seps(c) <==> s in Seps(c.child) && s.key != c.item.key
    ensures c.Remove? || c.Abort? ==> Seps(c) == Seps(c.child)
  {
  }

  lemma DataIs(t: State, t': State, id: NodeId, c: Inner)
    requires OnlyThere(t, t', id) && id in t'.inners && t'.inners[id] == c && id in t.inners && (c.Insert? || c.Delete?) && c.child == t.inners[id]
    requires HighOf(c) == HighOf(c.child)
    ensures Seps(c) == Seps(c.child) + {c.item} ==> OneMore(t, t', id, c.item)
    ensures (forall s :: s in Seps(c) <==> s in Seps(c.child) && s.key != c.item.key) ==> OneLess(t, t', id, c.item.key)
  {
    hide OnlyThere, HighOf, Seps;
  }

  lemma SameIs(t: State, t': State, id: NodeId)
    requires OnlyThere(t, t', id) && id in t.inners && id in t'.inners && HighOf(t'.inners[id]) == HighOf(t.inners[id])
    requires Seps(t'.inners[id]) == Seps(t.inners[id]) && LowIdOf(t'.inners[id]) == LowIdOf(t.inners[id])
    ensures SameNode(t, t', id)
  {
    hide OnlyThere, HighOf, Seps, LowIdOf;
  }

  lemma BaseHigh(c: Inner)
    requires c.Base?
    ensures HighOf(c) == c.high
  {
  }

  lemma PlainMeaning(t: State, step: Step)
    requires Inv(t) && Enabled(t, step) && (step.ConsolidateInner? || step.RemoveInner? || step.InstallAbort? || step.RemoveAbort?)
    ensures SameNode(t, After(t, step), step.id) && step.id in t.inners && step.id in After(t, step).inners
    ensures var c, c' := t.inners[step.id], After(t, step).inners[step.id];
            && (step.ConsolidateInner? ==> c'.Base?) && (step.RemoveInner? ==> c'.Remove?) && (step.InstallAbort? ==> c'.Abort?)
            && (step.RemoveAbort? ==> c == Abort(c'))
  {
    hide *;
    if step.ConsolidateInner? {
      EnabledConsolidate(t, step);
      BaseHigh(step.base);
      OnTop(t, step.id, step.base);
    } else if step.RemoveAbort? {
      EnabledRemoveAbort(t, step);
      DataSepsAre(t.inners[step.id]);
      OnTop(t, step.id, t.inners[step.id].child);
    } else {
      EnabledPlain(t, step);
      var c' := if step.RemoveInner? then Remove(step.id, t.inners[step.id]) else Abort(t.inners[step.id]);
      DataSepsAre(c');
      OnTop(t, step.id, c');
    }
    SameIs(t, After(t, step), step.id);
  }

  lemma PrepareMeaning(t: State, step: Step)
    requires Inv(t) && Enabled(t, step) && step.PrepareInnerSplit?
    ensures Prepared(t, After(t, step), step.base)
  {
    hide *;
    EnabledPrepare(t, step);
    AllBelow(t);
    PreparedIs(t, After(t, step), InnerPending(step.id, step.base, |step.base.items| / 2));
  }

  lemma PreparedIs(t: State, t': State, p: InnerPending)
    requires t.nextId !in t.inners && p.base.Base? && 1 <= p.index == |p.base.items| / 2 < |p.base.items|
    requires t' == t.(inners := t.inners[t.nextId := Sibling(p)], innerSeen := t'.innerSeen, innerPending := t.innerPending[t.nextId := p], nextId := t.nextId + 1)
    ensures Prepared(t, t', p.base)
  {
  }

  lemma RootMeaning(t: State, step: Step)
    requires Inv(t) && Enabled(t, step) && step.SplitRoot?
    ensures Grown(t, After(t, step), step.key, step.sibling)
  {
    hide *;
    AllBelow(t);
    GrownIs(t, step);
  }

  lemma GrownIs(t: State, step: Step)
    requires Enabled(t, step) && step.SplitRoot? && t.nextId !in t.inners
    ensures Grown(t, After(t, step), step.key, step.sibling)
  {
    hide Enabled;
    var items := [Sep(0, t.root), Sep(step.key, step.sibling)];
    assert Behind(items, 1) == {items[1]};
  }

  lemma MergeMeaning(t: State, step: Step)
    requires Inv(t) && Enabled(t, step) && step.MergeInner?
    ensures United(t, After(t, step), step.id, step.removed, step.right)
  {
    hide *;
    EnabledMergeInner(t, step);
    OpenFacts(t, step.id);
    RemovedFacts(t, step.removed, step.right);
    var c := t.inners[step.id];
    HighIsNamed(c, t.lows);
    NextBegins(c, step.removed, step.right, t.lows);
    var c' := Merge(HighOf(c).key, step.removed, step.right, c);
    MergeDivides(c, HighOf(c).key, step.removed, step.right);
    OnTop(t, step.id, c');
    UnitedIs(t, After(t, step), step.id, step.removed, step.right);
  }

  lemma UnitedIs(t: State, t': State, id: NodeId, removed: NodeId, right: Inner)
    requires OnlyThere(t, t', id) && id in t.inners && id in t'.inners && HighOf(t.inners[id]).HighAt? && HighOf(t.inners[id]).next == removed
    requires t'.inners[id] == Merge(HighOf(t.inners[id]).key, removed, right, t.inners[id]) && Divide(t'.inners[id], t.inners[id], HighOf(t.inners[id]).key, right)
    ensures United(t, t', id, removed, right)
  {
    hide OnlyThere, Divide, HighOf;
  }

  lemma MergeDivides(c: Inner, k: int, removed: NodeId, right: Inner)
    requires WellFormed(c) && WellFormed(right) && right.Base? && HighOf(c).HighAt? && HighOf(c).key == k && LowOf(right) == LowAt(k)
    ensures LowOf(Merge(k, removed, right, c)) == LowOf(c) && Divide(Merge(k, removed, right, c), c, k, right)
  {
    hide WellFormed, Seps;
    MergeSepsAre(c, k, removed, right);
    forall s | s in Seps(c)
      ensures s.key < k
    {
      SepsInRange(c, s);
    }
    forall s | s in Seps(right)
      ensures k < s.key
    {
      SepsInRange(right, s);
    }
  }

  lemma MergeSepsAre(c: Inner, k: int, removed: NodeId, right: Inner)
    ensures var m := Merge(k, removed, right, c);
            && Seps(m) == Seps(c) + {Sep(k, LowIdOf(right))} + Seps(right)
            && LowOf(m) == LowOf(c) && HighOf(m) == HighOf(right) && LowIdOf(m) == LowIdOf(c)
  {
  }

  lemma SplitMeaning(t: State, step: Step)
    requires Inv(t) && Enabled(t, step) && step.InstallInnerSplit?
    ensures step.newId in t.innerPending && Divided(t, After(t, step), t.innerPending[step.newId].left, step.newId)
  {
    hide *;
    EnabledSplit(t, step);
    InvParts(t);
    var n, p := step.newId, t.innerPending[step.newId];
    PendingFacts(t, n);
    SiblingIs(t, n);
    OpenFacts(t, p.left);
    SplitDivides(p, n);
    DividedIs(t, After(t, step), p, n);
  }

  lemma SiblingIs(t: State, n: NodeId)
    requires SplitsPending(t) && n in t.innerPending
    ensures var p := t.innerPending[n]; p.base.Base? && 1 <= p.index < |p.base.items| && n in t.inners && t.inners[n] == Sibling(p)
  {
    hide Sibling;
  }

  lemma DividedIs(t: State, t': State, p: InnerPending, n: NodeId)
    requires p.left in t.inners && t.inners[p.left] == p.base && n in t.inners && p.base.Base? && p.index < |p.base.items| && t.inners[n] == Sibling(p)
    requires var c := Split(PendingKey(p), n, PendingCount(p), p.base);
             && HighOf(c) == HighAt(PendingKey(p), n) && Divide(p.base, c, PendingKey(p), Sibling(p))
             && ItemCount(c) + ItemCount(Sibling(p)) == ItemCount(p.base)
             && t' == t.(inners := t.inners[p.left := c], innerSeen := t'.innerSeen, innerPending := t.innerPending - {n}, lows := t.lows[n := LowAt(PendingKey(p))])
    ensures Divided(t, t', p.left, n)
  {
    hide Divide, HighOf, ItemCount, Sibling, PendingKey, PendingCount;
  }

  lemma SplitDivides(p: InnerPending, n: NodeId)
    requires p.base.Base? && 1 <= p.index < |p.base.items| && WellFormed(p.base)
    ensures var c := Split(PendingKey(p), n, PendingCount(p), p.base);
            && HighOf(c) == HighAt(PendingKey(p), n) && Divide(p.base, c, PendingKey(p), Sibling(p))
            && ItemCount(c) + ItemCount(Sibling(p)) == ItemCount(p.base)
  {
    hide Seps, WellFormed;
    SplitSepsAre(p.base, p.index, n);
    assert Sibling(p) == Base(LowAt(p.base.items[p.index].key), p.base.high, p.base.items[p.index..]);
  }

  lemma SplitSepsAre(base: Inner, m: nat, n: NodeId)
    requires base.Base? && 1 <= m < |base.items| && WellFormed(base)
    ensures var k := base.items[m].key;
            var c, r := Split(k, n, |base.items| - m, base), Base(LowAt(k), base.high, base.items[m..]);
            && Seps(base) == Seps(c) + {base.items[m]} + Seps(r)
            && (forall s :: s in Seps(c) ==> s.key < k) && (forall s :: s in Seps(r) ==> k < s.key)
  {
    var k := base.items[m].key;
    BaseOrdered(base);
    hide WellFormed;
    forall s
      ensures s in Behind(base.items, 1) && k < s.key <==> s in Behind(base.items[m..], 1)
      ensures s in Behind(base.items, 1) && s.key == k <==> s == base.items[m]
    {
      Places(base.items, m, s);
    }
    var c, r := Split(k, n, |base.items| - m, base), Base(LowAt(k), base.high, base.items[m..]);
    assert Seps(base) == Behind(base.items, 1) && Seps(r) == Behind(base.items[m..], 1);
    assert Seps(c) == set s | s in Seps(base) && s.key < k;
    hide Seps, Behind;
  }

  lemma Places(items: seq<Sep>, m: nat, s: Sep)
    requires 1 <= m < |items| && forall i, j :: 1 <= i < j < |items| ==> items[i].key < items[j].key
    ensures s in Behind(items, 1) && items[m].key < s.key <==> s in Behind(items[m..], 1)
    ensures s in Behind(items, 1) && s.key == items[m].key <==> s == items[m]
  {
    assert items[m] in Behind(items, 1);
    if s in Behind(items, 1) && items[m].key < s.key {
      var i :| 1 <= i < |items| && items[i] == s;
      assert i > m && items[m..][i - m] == s;
    }
    if s in Behind(items[m..], 1) {
      var i :| 1 <= i < |items| - m && items[m..][i] == s;
      assert items[m + i] == s;
    }
  }

  // ------------------------------------------------------------------------------------
  // What a thread computes may be installed
  // ------------------------------------------------------------------------------------

  /** The consolidated form of an inner node replaces it. */
  method ConsolidateInnerNode(ghost t: State, id: NodeId, node: Inner) returns (base: Inner)
    requires Inv(t) && Open(t, id) && t.inners[id] == node
    ensures Enabled(t, ConsolidateInner(id, base)) && |base.items| == ItemCount(node)
  {
    OpenFacts(t, id);
    hide Inv, WellFormed, Named, Seps;
    base := InnerConsolidate.CollectAllSepsOnInner(node);
  }

  /** The consolidated form of a leaf replaces it. */
  method ConsolidateLeafNode(ghost t: State, id: NodeId, node: L.Chain) returns (leaf: L.Chain)
    requires Inv(t) && LeafLevel.Reachable(t.leaves, id) && t.leaves.table[id] == node && !node.Remove?
    ensures Enabled(t, OnLeaves(LeafLevel.Consolidate(id, leaf))) && leaf.Leaf? && |leaf.items| == L.ItemCount(node)
  {
    LeafTable(t, id);
    LeafFormed(node);
    hide Inv, L.WellFormed, L.Replay, LeafLevel.Live;
    leaf := LeafConsolidate.CollectAllValuesOnLeaf(node);
  }

  lemma LeafFormed(c: L.Chain)
    requires LeafLevel.Live(c)
    ensures L.WellFormed(c)
  {
    hide L.WellFormed;
  }

  /** The sibling that a leaf is split into is prepared as it was computed, and if nobody is faster the
      split is installed. */
  method SplitLeafNode(ghost t: State, id: NodeId, leaf: L.Chain) returns (p: int, sibling: L.Chain)
    requires Inv(t) && LeafLevel.Reachable(t.leaves, id) && t.leaves.table[id] == leaf && leaf.Leaf?
    requires LeafSplit.LEAF_NODE_SIZE_UPPER_THRESHOLD <= |leaf.items|
    ensures p != -1 ==> 0 < p < |leaf.items|
    ensures p != -1 ==>
      var prepare, install := LeafLevel.PrepareSplit(id, t.nextId, leaf, leaf.items[p].key, |leaf.items| - p), LeafLevel.InstallSplit(t.nextId);
      && Enabled(t, OnLeaves(prepare)) && t.nextId in After(t, OnLeaves(prepare)).leaves.table
      && After(t, OnLeaves(prepare)).leaves.table[t.nextId] == sibling
      && Enabled(After(t, OnLeaves(prepare)), OnLeaves(install))
  {
    LeafTable(t, id);
    LeafFormed(leaf);
    p, sibling := LeafSplit.GetSplitSibling(leaf);
    if p != -1 {
      SplitAllowed(t, id, leaf, p);
    }
  }

  lemma SplitAllowed(t: State, id: NodeId, leaf: L.Chain, p: nat)
    requires Inv(t) && LeafLevel.Reachable(t.leaves, id) && t.leaves.table[id] == leaf && leaf.Leaf?
    requires LeafSplit.LEAF_NODE_SIZE_UPPER_THRESHOLD <= |leaf.items| && 0 < p < |leaf.items| && L.SplitsLeaf(leaf.items, leaf.items[p].key, |leaf.items| - p)
    ensures var prepare, install := LeafLevel.PrepareSplit(id, t.nextId, leaf, leaf.items[p].key, |leaf.items| - p), LeafLevel.InstallSplit(t.nextId);
            && Enabled(t, OnLeaves(prepare)) && t.nextId in After(t, OnLeaves(prepare)).leaves.table
            && After(t, OnLeaves(prepare)).leaves.table[t.nextId] == L.Leaf(LowAt(leaf.items[p].key), leaf.high, leaf.items[p..])
            && Enabled(After(t, OnLeaves(prepare)), OnLeaves(install))
  {
    hide *;
    AllBelow(t);
    InvParts(t);
    ReachableIs(t, id);
    LeafSeen(t, id);
    var prepare := LeafLevel.PrepareSplit(id, t.nextId, leaf, leaf.items[p].key, |leaf.items| - p);
    LeafSplitGoes(t.leaves, prepare, p);
    OnLeavesIs(t, prepare);
    EnabledOnLeaves(t, OnLeaves(prepare));
    OnLeavesIs(After(t, OnLeaves(prepare)), LeafLevel.InstallSplit(t.nextId));
  }

  lemma OnLeavesIs(t: State, s: LeafLevel.Step)
    ensures Enabled(t, OnLeaves(s)) <==> LeafLevel.Enabled(t.leaves, s) && (s.PrepareSplit? ==> s.newId == t.nextId)
  {
    hide LeafLevel.Enabled;
  }

  lemma LeafSeen(t: State, id: NodeId)
    requires Current(t) && id in t.leaves.table
    ensures LeafLevel.Snapshot(id, t.leaves.table[id]) in t.leaves.seen
  {
  }

  lemma LeafSplitGoes(l: LeafLevel.State, s: LeafLevel.Step, p: nat)
    requires s.PrepareSplit? && LeafLevel.Reachable(l, s.id) && l.table[s.id] == s.base && s.newId !in l.table && LeafLevel.Snapshot(s.id, s.base) in l.seen
    requires s.base.Leaf? && LeafSplit.LEAF_NODE_SIZE_UPPER_THRESHOLD <= |s.base.items| && L.SplitsLeaf(s.base.items, s.key, s.count)
    requires 0 < p < |s.base.items| && s.count == |s.base.items| - p && s.key == s.base.items[p].key
    ensures LeafLevel.Enabled(l, s)
    ensures var l' := LeafLevel.After(l, s);
            && s.newId in l'.table && l'.table[s.newId] == L.Leaf(LowAt(s.key), s.base.high, s.base.items[p..])
            && LeafLevel.Enabled(l', LeafLevel.InstallSplit(s.newId))
  {
    hide L.SplitsLeaf;
  }

  /** A leaf that is small enough and not the first is removed and merged into its left sibling. */
  lemma MergeLeafNodes(t: State, left: NodeId, id: NodeId) returns (t1: State)
    requires LeafLevel.Reachable(t.leaves, left) && LeafLevel.Reachable(t.leaves, id) && left != id && !t.leaves.table[left].Remove?
    requires L.HighOf(t.leaves.table[left]).HighAt? && L.HighOf(t.leaves.table[left]).next == id
    requires var leaf := t.leaves.table[id]; leaf.Leaf? && leaf.low.LowAt? && |leaf.items| <= LeafSplit.LEAF_NODE_SIZE_LOWER_THRESHOLD
    ensures Enabled(t, OnLeaves(LeafLevel.InstallRemove(id))) && t1 == After(t, OnLeaves(LeafLevel.InstallRemove(id)))
    ensures Enabled(t1, OnLeaves(LeafLevel.InstallMerge(left, id, t.leaves.table[id])))
  {
    hide *;
    ReachableIs(t, id);
    LeafMergeGoes(t.leaves, left, id);
    OnLeavesIs(t, LeafLevel.InstallRemove(id));
    EnabledOnLeaves(t, OnLeaves(LeafLevel.InstallRemove(id)));
    t1 := After(t, OnLeaves(LeafLevel.InstallRemove(id)));
    OnLeavesIs(t1, LeafLevel.InstallMerge(left, id, t.leaves.table[id]));
  }

  lemma LeafMergeGoes(l: LeafLevel.State, left: NodeId, id: NodeId)
    requires LeafLevel.Reachable(l, left) && LeafLevel.Reachable(l, id) && left != id && !l.table[left].Remove?
    requires L.HighOf(l.table[left]).HighAt? && L.HighOf(l.table[left]).next == id
    requires var leaf := l.table[id]; leaf.Leaf? && leaf.low.LowAt? && |leaf.items| <= LeafSplit.LEAF_NODE_SIZE_LOWER_THRESHOLD
    ensures LeafLevel.Enabled(l, LeafLevel.InstallRemove(id))
    ensures LeafLevel.Enabled(LeafLevel.After(l, LeafLevel.InstallRemove(id)), LeafLevel.InstallMerge(left, id, l.table[id]))
  {
    hide L.HighOf;
  }

  /** A prepared split of a leaf that is given up leaves no trace. */
  lemma DropLeafAgain(t: State, s: LeafLevel.Step) returns (t1: State, t2: State)
    requires Inv(t) && s.PrepareSplit? && Enabled(t, OnLeaves(s))
    ensures t1 == After(t, OnLeaves(s)) && Enabled(t1, OnLeaves(LeafLevel.DropSplit(s.newId))) && t2 == After(t1, OnLeaves(LeafLevel.DropSplit(s.newId)))
    ensures t2 == t.(leaves := t.leaves.(seen := t2.leaves.seen), nextId := t2.nextId)
  {
    hide *;
    AllBelow(t);
    OnLeavesIs(t, s);
    EnabledOnLeaves(t, OnLeaves(s));
    t1 := After(t, OnLeaves(s));
    LeafDropGoes(t.leaves, s);
    OnLeavesIs(t1, LeafLevel.DropSplit(s.newId));
    EnabledOnLeaves(t1, OnLeaves(LeafLevel.DropSplit(s.newId)));
    t2 := After(t1, OnLeaves(LeafLevel.DropSplit(s.newId)));
  }

  lemma LeafDropGoes(l: LeafLevel.State, s: LeafLevel.Step)
    requires s.PrepareSplit? && LeafLevel.Enabled(l, s) && s.newId !in l.pending
    ensures var l1 := LeafLevel.After(l, s);
            && LeafLevel.Enabled(l1, LeafLevel.DropSplit(s.newId))
            && LeafLevel.After(l1, LeafLevel.DropSplit(s.newId)) == l.(seen := l1.seen)
  {
    hide L.SplitsLeaf;
    var l1 := LeafLevel.After(l, s);
    assert l1.table - {s.newId} == l.table && l1.pending - {s.newId} == l.pending;
  }

  lemma MayPrepare(t: State, id: NodeId, base: Inner)
    requires id in t.lows && InnerSnapshot(id, base) in t.innerSeen && base.Base? && INNER_NODE_SIZE_UPPER_THRESHOLD <= |base.items|
    ensures Enabled(t, PrepareInnerSplit(id, base))
  {
  }

  lemma MayInstall(t: State, n: NodeId)
    requires n in t.innerPending && Open(t, t.innerPending[n].left) && t.inners[t.innerPending[n].left] == t.innerPending[n].base
    ensures Enabled(t, InstallInnerSplit(n))
  {
    hide Open;
  }

  lemma MayGrow(t: State, c: Inner)
    requires InnerSnapshot(t.root, c) in t.innerSeen && c.Split?
    ensures Enabled(t, SplitRoot(c.splitKey, c.sibling))
  {
  }

  lemma InnerSeenNow(t: State, id: NodeId)
    requires Inv(t) && Open(t, id)
    ensures id in t.inners && id in t.lows && InnerSnapshot(id, t.inners[id]) in t.innerSeen && id != t.nextId && t.inners[id] != Abort(t.inners[id])
  {
    AllBelow(t);
    InvParts(t);
    hide Inv, LeafLevel.Inv, LeavesNamed, InnersNamed, SplitsPending;
  }

  lemma OpenAs(t: State, t': State, id: NodeId)
    ensures id in t.inners && id in t.lows && !t.inners[id].Remove? && !t.inners[id].Abort? <==> Open(t, id)
    ensures Open(t, id) && id in t'.inners && t'.inners[id] == t.inners[id] && id in t'.lows ==> Open(t', id)
  {
  }

  /** An inner node that is large enough is split, and if it is the root, the tree grows. */
  lemma SplitInnerNode(t: State, id: NodeId) returns (t1: State, t2: State)
    requires Inv(t) && Open(t, id) && t.inners[id].Base? && INNER_NODE_SIZE_UPPER_THRESHOLD <= |t.inners[id].items|
    ensures Enabled(t, PrepareInnerSplit(id, t.inners[id])) && t1 == After(t, PrepareInnerSplit(id, t.inners[id]))
    ensures Enabled(t1, InstallInnerSplit(t.nextId)) && t2 == After(t1, InstallInnerSplit(t.nextId))
    ensures id in t2.inners && t2.inners[id].Split? && t2.inners[id].sibling == t.nextId && t2.root == t.root
    ensures id == t.root ==> Enabled(t2, SplitRoot(t2.inners[id].splitKey, t.nextId))
  {
    hide *;
    InnerSeenNow(t, id);
    OpenAs(t, t, id);
    var base, prepare, install := t.inners[id], PrepareInnerSplit(id, t.inners[id]), InstallInnerSplit(t.nextId);
    MayPrepare(t, id, base);
    EnabledPrepare(t, prepare);
    t1 := After(t, prepare);
    OpenAs(t, t1, id);
    MayInstall(t1, t.nextId);
    EnabledSplit(t1, install);
    t2 := After(t1, install);
    if id == t.root { MayGrow(t2, t2.inners[id]); }
  }

  lemma MayRemove(t: State, id: NodeId)
    requires Open(t, id) && id != t.root && t.inners[id].Base? && |t.inners[id].items| <= INNER_NODE_SIZE_LOWER_THRESHOLD
    ensures Enabled(t, RemoveInner(id))
  {
    hide Open;
  }

  lemma MayMerge(t: State, id: NodeId, removed: NodeId, right: Inner)
    requires Open(t, id) && InnerSnapshot(removed, Remove(removed, right)) in t.innerSeen && HighOf(t.inners[id]).HighAt? && HighOf(t.inners[id]).next == removed
    ensures Enabled(t, MergeInner(id, removed, right))
  {
    hide Open, HighOf;
  }

  /** An inner node that is small enough and not the root is removed and merged into its left sibling. */
  lemma MergeInnerNodes(t: State, left: NodeId, id: NodeId) returns (t1: State)
    requires Inv(t) && Open(t, left) && Open(t, id) && HighOf(t.inners[left]).HighAt? && HighOf(t.inners[left]).next == id
    requires id != t.root && left != id && t.inners[id].Base? && |t.inners[id].items| <= INNER_NODE_SIZE_LOWER_THRESHOLD
    ensures Enabled(t, RemoveInner(id)) && t1 == After(t, RemoveInner(id)) && Enabled(t1, MergeInner(left, id, t.inners[id]))
  {
    hide *;
    MayRemove(t, id);
    EnabledPlain(t, RemoveInner(id));
    t1 := After(t, RemoveInner(id));
    InstallIs(t, id, Remove(id, t.inners[id]));
    OpenAs(t, t1, left);
    MayMerge(t1, left, id, t.inners[id]);
  }

  lemma MayAbort(t: State, id: NodeId)
    ensures Open(t, id) ==> Enabled(t, InstallAbort(id))
    ensures id in t.inners && id in t.lows && t.inners[id].Abort? ==> Enabled(t, RemoveAbort(id)) && !Open(t, id)
  {
  }

  /** An abort node goes on and off again, and leaves the node as it was. */
  lemma AbortAndBack(t: State, id: NodeId) returns (t1: State, t2: State)
    requires Inv(t) && Open(t, id)
    ensures Enabled(t, InstallAbort(id)) && t1 == After(t, InstallAbort(id)) && Enabled(t1, RemoveAbort(id)) && t2 == After(t1, RemoveAbort(id))
    ensures t2 == t.(innerSeen := t2.innerSeen) && !Open(t1, id)
  {
    hide *;
    OpenAs(t, t, id);
    MayAbort(t, id);
    EnabledPlain(t, InstallAbort(id));
    t1 := After(t, InstallAbort(id));
    InstallIs(t, id, Abort(t.inners[id]));
    MayAbort(t1, id);
    EnabledRemoveAbort(t1, RemoveAbort(id));
    t2 := After(t1, RemoveAbort(id));
    InstallIs(t1, id, t.inners[id]);
    assert t2.inners == t.inners;
  }

  lemma MayDrop(t: State, n: NodeId)
    requires n in t.innerPending
    ensures Enabled(t, DropInnerSplit(n))
  {
  }

  /** A prepared split that is given up leaves no trace. */
  lemma DropAgain(t: State, id: NodeId, base: Inner) returns (t1: State, t2: State)
    requires Inv(t) && Enabled(t, PrepareInnerSplit(id, base))
    ensures t1 == After(t, PrepareInnerSplit(id, base)) && Enabled(t1, DropInnerSplit(t.nextId)) && t2 == After(t1, DropInnerSplit(t.nextId))
    ensures t2 == t.(innerSeen := t2.innerSeen, nextId := t2.nextId)
  {
    hide *;
    AllBelow(t);
    EnabledPrepare(t, PrepareInnerSplit(id, base));
    t1 := After(t, PrepareInnerSplit(id, base));
    MayDrop(t1, t.nextId);
    EnabledDrop(t1, DropInnerSplit(t.nextId));
    t2 := After(t1, DropInnerSplit(t.nextId));
    assert t2.inners == t.inners && t2.innerPending == t.innerPending;
  }

  // ------------------------------------------------------------------------------------
  // Every run
  // ------------------------------------------------------------------------------------

  /** The root is not removed, and neither is the first leaf. */
  ghost predicate Standing(t: State)
  {
    && t.root in t.inners && !t.inners[t.root].Remove?
    && forall id :: id in t.leaves.table && t.leaves.table[id].Remove? ==> L.LowOf(t.leaves.table[id]).LowAt?
  }

  lemma InitStanding(t: State)
    requires Init(t)
    ensures Standing(t)
  {
  }

  lemma LeavesStand(l: LeafLevel.State, s: LeafLevel.Step)
    requires LeafLevel.Enabled(l, s) && forall id :: id in l.table && l.table[id].Remove? ==> L.LowOf(l.table[id]).LowAt?
    ensures forall id :: id in LeafLevel.After(l, s).table && LeafLevel.After(l, s).table[id].Remove? ==> L.LowOf(LeafLevel.After(l, s).table[id]).LowAt?
  {
    hide L.WellFormed, L.Replay, L.Placed, L.SplitsLeaf, L.BaseFor, LeafLevel.InsertedAfter, LeafLevel.Without;
  }

  lemma InstallStands(t: State, id: NodeId, c: Inner)
    requires Standing(t) && (c.Remove? ==> id != t.root)
    ensures Standing(Install(t, id, c))
  {
    hide L.LowOf;
  }

  lemma OthersStand(t: State, t': State)
    requires Standing(t) && t'.leaves == t.leaves && t'.root in t'.inners
    requires t'.inners[t'.root].Remove? ==> t'.root == t.root && t'.root in t.inners && t'.inners[t'.root] == t.inners[t.root]
    ensures Standing(t')
  {
    hide L.LowOf;
  }

  lemma LeafStands(t: State, step: Step)
    requires Enabled(t, step) && Standing(t) && step.OnLeaves?
    ensures Standing(After(t, step))
  {
    EnabledOnLeaves(t, step);
    LeavesStand(t.leaves, step.step);
    hide Enabled, After, LeafLevel.Enabled, LeafLevel.After, L.LowOf;
  }

  lemma RootGrows(t: State, step: Step)
    requires Enabled(t, step) && step.SplitRoot?
    ensures var t' := After(t, step); t'.leaves == t.leaves && t'.root in t'.inners && t'.inners[t'.root].Base?
  {
    hide Enabled;
  }

  lemma NotTheRoot(t: State, id: NodeId)
    requires Enabled(t, RemoveInner(id))
    ensures id != t.root
  {
    hide Open;
  }

  lemma StepStands(t: State, step: Step)
    requires Inv(t) && Enabled(t, step) && Standing(t)
    ensures Standing(After(t, step))
  {
    hide *;
    AllBelow(t);
    RootNotPending(t);
    match step
    case OnLeaves(_) => LeafStands(t, step);
    case PostInsert(id, _, key, newId, next, loc) =>
      EnabledPost(t, step);
      InstallStands(t, id, Insert(Sep(key, newId), next, loc, t.inners[id]));
    case PostDelete(id, child, prevKey, key, removed, next, loc) =>
      EnabledPost(t, step);
      InstallStands(t, id, Delete(Sep(key, removed), Sep(prevKey, child), next, loc, t.inners[id]));
    case ConsolidateInner(id, base) =>
      EnabledConsolidate(t, step);
      InstallStands(t, id, base);
    case RemoveInner(id) =>
      EnabledPlain(t, step);
      NotTheRoot(t, id);
      InstallStands(t, id, Remove(id, t.inners[id]));
    case InstallAbort(id) =>
      EnabledPlain(t, step);
      InstallStands(t, id, Abort(t.inners[id]));
    case RemoveAbort(id) =>
      EnabledRemoveAbort(t, step);
      AbortStands(t, id);
      InstallStands(t, id, t.inners[id].child);
    case MergeInner(id, removed, right) =>
      EnabledMergeInner(t, step);
      InstallStands(t, id, Merge(HighOf(t.inners[id]).key, removed, right, t.inners[id]));
    case PrepareInnerSplit(_, _) =>
      EnabledPrepare(t, step);
      OthersStand(t, After(t, step));
    case InstallInnerSplit(_) =>
      EnabledSplit(t, step);
      OthersStand(t, After(t, step));
    case DropInnerSplit(_) =>
      EnabledDrop(t, step);
      OthersStand(t, After(t, step));
    case SplitRoot(_, _) =>
      RootGrows(t, step);
      OthersStand(t, After(t, step));
  }

  lemma AbortStands(t: State, id: NodeId)
    requires Inv(t) && id in t.inners && id in t.lows && t.inners[id].Abort?
    ensures !t.inners[id].child.Remove?
  {
    AbortWhole(t, id);
    hide Inv;
  }

  lemma AbortWhole(t: State, id: NodeId)
    requires Inv(t) && id in t.inners && t.inners[id].Abort?
    ensures WellFormed(t.inners[id])
  {
    InvParts(t);
    hide Inv, LeafLevel.Inv, LeavesNamed, SplitsPending, Published, WellFormed;
    assert InnerSnapshot(id, t.inners[id]) in t.innerSeen;
    assert InnerSnapshot(id, t.inners[id]).chain == t.inners[id];
  }

  lemma RootNotPending(t: State)
    requires Inv(t)
    ensures t.root !in t.innerPending && t.root in t.inners
  {
    InvParts(t);
    hide Inv, LeafLevel.Inv, LeavesNamed, InnersNamed, SplitsPending, Current;
  }

  ghost predicate Run(states: seq<State>, steps: seq<Step>)
  {
    && |states| == |steps| + 1 && Init(states[0])
    && forall i :: 0 <= i < |steps| ==> Enabled(states[i], steps[i]) && states[i + 1] == After(states[i], steps[i])
  }

  lemma {:induction false} RunKeeps(states: seq<State>, steps: seq<Step>, i: nat)
    requires Run(states, steps) && i <= |steps|
    ensures Inv(states[i]) && KindsApart(states[i]) && Standing(states[i])
  {
    hide Inv, KindsApart, Standing, Enabled, After, Init;
    if i == 0 {
      InitHolds(states[0]);
    } else {
      RunKeeps(states, steps, i - 1);
      assert Enabled(states[i - 1], steps[i - 1]) && states[i - 1 + 1] == After(states[i - 1], steps[i - 1]);
      StepKeeps(states[i - 1], steps[i - 1]);
      StepApart(states[i - 1], steps[i - 1]);
      StepStands(states[i - 1], steps[i - 1]);
    }
  }

  lemma InitHolds(t: State)
    requires Init(t)
    ensures Inv(t) && KindsApart(t) && Standing(t)
  {
    hide *;
    TreeTraverse.InitSound(t, 0);
    TreeTraverse.SoundIs(t, 0);
    InitApart(t);
    InitStanding(t);
  }

  /** From the empty tree, in every run of any threads: every separator and next link names a node that
      begins at its key, leaves and inner nodes stay apart, the root and the first leaf stay, and every
      step means for the separators what it is meant to. */
  lemma EveryRun(states: seq<State>, steps: seq<Step>)
    requires Run(states, steps)
    ensures forall i :: 0 <= i <= |steps| ==> Inv(states[i]) && KindsApart(states[i]) && Standing(states[i])
    ensures forall i :: 0 <= i < |steps| ==> Meaning(states[i], steps[i], states[i + 1])
  {
    hide Inv, KindsApart, Standing, Enabled, After, Init, Meaning;
    forall i | 0 <= i <= |steps|
      ensures Inv(states[i]) && KindsApart(states[i]) && Standing(states[i])
    {
      RunKeeps(states, steps, i);
    }
    forall i | 0 <= i < |steps|
      ensures Meaning(states[i], steps[i], states[i + 1])
    {
      StepMeaning(states[i], steps[i]);
    }
  }
}
