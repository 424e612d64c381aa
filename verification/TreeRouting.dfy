/** The whole tree under concurrent change: names keep leading to the right place.

`lows` remembers at which key each published NodeID begins.  A NodeID is published when something
that leads to it is installed; the sibling of a prepared split is not. */
module TreeRouting {
  import opened BwTypes
  import opened InnerChain
  import opened InnerSearch
  import L = LeafChain
  import LeafLevel

  datatype InnerSnapshot = InnerSnapshot(id: NodeId, chain: Inner)

  datatype InnerPending = InnerPending(left: NodeId, base: Inner, index: nat)

  datatype State = State(leaves: LeafLevel.State, inners: map<NodeId, Inner>, innerPending: map<NodeId, InnerPending>,
    innerSeen: set<InnerSnapshot>, root: NodeId, lows: map<NodeId, Low>, nextId: NodeId)

  datatype Step =
    | OnLeaves(step: LeafLevel.Step)
    | PostInsert(id: NodeId, child: NodeId, key: int, newId: NodeId, next: High, loc: nat)
    | PostDelete(id: NodeId, child: NodeId, prevKey: int, key: int, removed: NodeId, next: High, loc: nat)
    | ConsolidateInner(id: NodeId, base: Inner)
    | PrepareInnerSplit(id: NodeId, base: Inner)
    | InstallInnerSplit(newId: NodeId)
    | DropInnerSplit(newId: NodeId)
    | RemoveInner(id: NodeId)
    | MergeInner(id: NodeId, removed: NodeId, right: Inner)
    | InstallAbort(id: NodeId)
    | RemoveAbort(id: NodeId)
    | SplitRoot(key: int, sibling: NodeId)

  const INNER_NODE_SIZE_UPPER_THRESHOLD := 128
  const INNER_NODE_SIZE_LOWER_THRESHOLD := 32

  function Install(t: State, id: NodeId, c: Inner): State
  {
    t.(inners := t.inners[id := c], innerSeen := t.innerSeen + {InnerSnapshot(id, c)})
  }

  /** `GetSplitSibling` of an inner node: the items from the middle on. */
  function Sibling(p: InnerPending): Inner
    requires p.base.Base? && p.index < |p.base.items|
  {
    Base(LowAt(p.base.items[p.index].key), p.base.high, p.base.items[p.index..])
  }

  /** A thread has seen the child with a split delta on top; `next` is the high key pair that the child
      had below it. */
  ghost predicate SplitSeen(t: State, child: NodeId, key: int, newId: NodeId, next: High)
  {
    || (exists c :: LeafLevel.Snapshot(child, c) in t.leaves.seen && c.Split? && c.splitKey == key && c.sibling == newId && L.HighOf(c.child) == next)
    || (exists c :: InnerSnapshot(child, c) in t.innerSeen && c.Split? && c.splitKey == key && c.sibling == newId && HighOf(c.child) == next)
  }

  /** A thread has seen the child with a merge delta on top; `next` is the high key pair of the node that
      was merged in. */
  ghost predicate MergeSeen(t: State, child: NodeId, key: int, removed: NodeId, next: High)
  {
    || (exists c :: LeafLevel.Snapshot(child, c) in t.leaves.seen && c.Merge? && c.mergeKey == key && c.deletedId == removed && L.HighOf(c.right) == next)
    || (exists c :: InnerSnapshot(child, c) in t.innerSeen && c.Merge? && c.mergeKey == key && c.deletedId == removed && HighOf(c.right) == next)
  }

  /** The node can be operated on: it is published, and neither removed nor aborted. */
  predicate Open(t: State, id: NodeId)
  {
    id in t.inners && id in t.lows && !t.inners[id].Remove? && !t.inners[id].Abort?
  }

  ghost predicate Enabled(t: State, step: Step)
  {
    match step
    case OnLeaves(s) => LeafLevel.Enabled(t.leaves, s) && (s.PrepareSplit? ==> s.newId == t.nextId)
    case PostInsert(id, child, key, newId, next, loc) =>
      && Open(t, id) && SplitSeen(t, child, key, newId, next) && ChildNamed(t.inners[id], child, t.lows)
      && BelowHigh(key, HighOf(t.inners[id])) && !Has(t.inners[id], key)
      && Located(BaseFor(t.inners[id], key), key, loc)
    case PostDelete(id, child, prevKey, key, removed, next, loc) =>
      && Open(t, id) && MergeSeen(t, child, key, removed, next) && ChildNamed(t.inners[id], child, t.lows)
      && (t.lows[child].LowAt? ==> t.lows[child].key == prevKey)
      && BelowHigh(key, HighOf(t.inners[id])) && Has(t.inners[id], key)
      && Located(BaseFor(t.inners[id], key), key, loc)
    case ConsolidateInner(id, base) =>
      && Open(t, id)
      && base.Base? && base.low == LowOf(t.inners[id]) && base.high == HighOf(t.inners[id])
      && WellFormed(base) && Seps(base) == Seps(t.inners[id]) && LowIdOf(base) == LowIdOf(t.inners[id])
    case PrepareInnerSplit(id, base) =>
      id in t.lows && InnerSnapshot(id, base) in t.innerSeen && base.Base? && INNER_NODE_SIZE_UPPER_THRESHOLD <= |base.items|
    case InstallInnerSplit(newId) =>
      && newId in t.innerPending && Open(t, t.innerPending[newId].left)
      && t.inners[t.innerPending[newId].left] == t.innerPending[newId].base
    case DropInnerSplit(newId) => newId in t.innerPending
    case RemoveInner(id) =>
      Open(t, id) && id != t.root && t.inners[id].Base? && |t.inners[id].items| <= INNER_NODE_SIZE_LOWER_THRESHOLD
    case MergeInner(id, removed, right) =>
      && Open(t, id) && InnerSnapshot(removed, Remove(removed, right)) in t.innerSeen
      && HighOf(t.inners[id]).HighAt? && HighOf(t.inners[id]).next == removed
    case InstallAbort(id) => Open(t, id)
    case RemoveAbort(id) => id in t.inners && id in t.lows && t.inners[id].Abort?
    case SplitRoot(key, sibling) =>
      exists c :: InnerSnapshot(t.root, c) in t.innerSeen && c.Split? && c.splitKey == key && c.sibling == sibling
  }

  function After(t: State, step: Step): State
    requires Enabled(t, step)
  {
    match step
    case OnLeaves(s) =>
      var t' := t.(leaves := LeafLevel.After(t.leaves, s));
      if s.PrepareSplit? then t'.(nextId := t.nextId + 1)
      else if s.InstallSplit? then t'.(lows := t.lows[s.newId := LowAt(t.leaves.pending[s.newId].key)])
      else t'
    case PostInsert(id, _, key, newId, next, loc) => Install(t, id, Insert(Sep(key, newId), next, loc, t.inners[id]))
    case PostDelete(id, child, prevKey, key, removed, next, loc) =>
      Install(t, id, Delete(Sep(key, removed), Sep(prevKey, child), next, loc, t.inners[id]))
    case ConsolidateInner(id, base) => Install(t, id, base)
    case PrepareInnerSplit(id, base) =>
      var p := InnerPending(id, base, |base.items| / 2);
      Install(t, t.nextId, Sibling(p)).(innerPending := t.innerPending[t.nextId := p], nextId := t.nextId + 1)
    case InstallInnerSplit(newId) =>
      var p := t.innerPending[newId];
      Install(t, p.left, Split(PendingKey(p), newId, PendingCount(p), p.base)).(
        innerPending := t.innerPending - {newId}, lows := t.lows[newId := LowAt(PendingKey(p))])
    case DropInnerSplit(newId) => t.(inners := t.inners - {newId}, innerPending := t.innerPending - {newId})
    case RemoveInner(id) => Install(t, id, Remove(id, t.inners[id]))
    case MergeInner(id, removed, right) => Install(t, id, Merge(HighOf(t.inners[id]).key, removed, right, t.inners[id]))
    case InstallAbort(id) => Install(t, id, Abort(t.inners[id]))
    case RemoveAbort(id) => Install(t, id, t.inners[id].child)
    case SplitRoot(key, sibling) =>
      Install(t, t.nextId, Base(NegInf, PosInf, [Sep(0, t.root), Sep(key, sibling)])).(
        root := t.nextId, lows := t.lows[t.nextId := NegInf], nextId := t.nextId + 1)
  }

  function PendingKey(p: InnerPending): int
  {
    if p.base.Base? && p.index < |p.base.items| then p.base.items[p.index].key else 0
  }

  function PendingCount(p: InnerPending): int
  {
    if p.base.Base? then |p.base.items| - p.index else 0
  }

  ghost predicate Init(t: State)
  {
    exists r: NodeId, f: NodeId ::
      && r != f && r < t.nextId && f < t.nextId
      && t.leaves == LeafLevel.State(map[f := L.Leaf(NegInf, PosInf, [])], [f], map[], {LeafLevel.Snapshot(f, L.Leaf(NegInf, PosInf, []))})
      && t.inners == map[r := Base(NegInf, PosInf, [Sep(0, f)])] && t.innerPending == map[]
      && t.innerSeen == {InnerSnapshot(r, Base(NegInf, PosInf, [Sep(0, f)]))}
      && t.root == r && t.lows == map[r := NegInf, f := NegInf]
  }

  // ------------------------------------------------------------------------------------
  // The invariant
  // ------------------------------------------------------------------------------------

  /** Whatever was ever installed under a published NodeID begins at the key of that NodeID, and its
      next link names a node that begins where it ends. */
  ghost predicate LeavesNamed(seen: set<LeafLevel.Snapshot>, pending: map<NodeId, LeafLevel.Pending>, lows: map<NodeId, Low>, nextId: NodeId)
  {
    forall x :: x in seen ==>
      && LeafLevel.Live(x.chain) && x.id < nextId && HighNamed(L.HighOf(x.chain), lows)
      && (x.id in lows ==> lows[x.id] == L.LowOf(x.chain))
      && (x.id in pending ==> L.LowOf(x.chain) == LowAt(pending[x.id].key))
  }

  ghost predicate InnersNamed(seen: set<InnerSnapshot>, pending: map<NodeId, InnerPending>, lows: map<NodeId, Low>, nextId: NodeId)
  {
    forall x :: x in seen ==>
      && WellFormed(x.chain) && x.id < nextId && Named(x.chain, lows)
      && (x.id in lows ==> lows[x.id] == LowOf(x.chain))
      && (x.id in pending ==> LowOf(x.chain) == LowAt(PendingKey(pending[x.id])))
  }

  ghost predicate Published(t: State)
  {
    && (forall id :: id in t.lows ==>
          id < t.nextId && id !in t.leaves.pending && id !in t.innerPending && (id in t.leaves.table || id in t.inners))
    && t.root in t.inners && Names(t.lows, t.root, NegInf)
  }

  ghost predicate Current(t: State)
  {
    && (forall id :: id in t.leaves.table ==> LeafLevel.Snapshot(id, t.leaves.table[id]) in t.leaves.seen)
    && (forall id :: id in t.inners ==> InnerSnapshot(id, t.inners[id]) in t.innerSeen)
  }

  ghost predicate SplitsPending(t: State)
  {
    && (forall n :: n in t.leaves.pending ==> n in t.leaves.table && n < t.nextId)
    && (forall x :: x in t.leaves.seen ==> x.id !in t.innerPending)
    && (forall x :: x in t.innerSeen ==> x.id !in t.leaves.pending)
    && (forall n :: n in t.innerPending ==>
          && n in t.inners && n < t.nextId && n !in t.leaves.pending
          && var p := t.innerPending[n];
             p.base.Base? && 1 <= p.index < |p.base.items|
             && InnerSnapshot(p.left, p.base) in t.innerSeen && t.inners[n] == Sibling(p))
  }

  ghost predicate Inv(t: State)
  {
    && LeafLevel.Inv(t.leaves)
    && LeavesNamed(t.leaves.seen, t.leaves.pending, t.lows, t.nextId)
    && InnersNamed(t.innerSeen, t.innerPending, t.lows, t.nextId)
    && Published(t) && Current(t) && SplitsPending(t)
  }

  // ------------------------------------------------------------------------------------
  // Names only grow
  // ------------------------------------------------------------------------------------

  predicate Extends(lows: map<NodeId, Low>, lows': map<NodeId, Low>)
  {
    forall id :: id in lows ==> id in lows' && lows'[id] == lows[id]
  }

  lemma {:induction false} NamedGrows(c: Inner, lows: map<NodeId, Low>, lows': map<NodeId, Low>)
    requires Named(c, lows) && Extends(lows, lows')
    ensures Named(c, lows')
  {
    match c
    case Base(_, _, _) =>
    case Merge(_, _, right, child) => NamedGrows(child, lows, lows'); NamedGrows(right, lows, lows');
    case _ => NamedGrows(c.child, lows, lows');
  }

  lemma LeavesStayNamed(seen: set<LeafLevel.Snapshot>, pending: map<NodeId, LeafLevel.Pending>, lows: map<NodeId, Low>, nextId: NodeId,
      pending': map<NodeId, LeafLevel.Pending>, lows': map<NodeId, Low>, nextId': NodeId)
    requires LeavesNamed(seen, pending, lows, nextId) && Extends(lows, lows') && nextId <= nextId'
    requires forall n :: n in pending' && (exists x :: x in seen && x.id == n) ==> n in pending && pending'[n] == pending[n]
    requires forall x :: x in seen && x.id in lows' && x.id !in lows ==> lows'[x.id] == L.LowOf(x.chain)
    ensures LeavesNamed(seen, pending', lows', nextId')
  {
    hide LeafLevel.Live, L.LowOf, L.HighOf;
  }

  lemma InnersStayNamed(seen: set<InnerSnapshot>, pending: map<NodeId, InnerPending>, lows: map<NodeId, Low>, nextId: NodeId,
      pending': map<NodeId, InnerPending>, lows': map<NodeId, Low>, nextId': NodeId)
    requires InnersNamed(seen, pending, lows, nextId) && Extends(lows, lows') && nextId <= nextId'
    requires forall n :: n in pending' && (exists x :: x in seen && x.id == n) ==> n in pending && pending'[n] == pending[n]
    requires forall x :: x in seen && x.id in lows' && x.id !in lows ==> lows'[x.id] == LowOf(x.chain)
    ensures InnersNamed(seen, pending', lows', nextId')
  {
    hide WellFormed, LowOf, PendingKey;
    forall x | x in seen
      ensures Named(x.chain, lows')
    {
      NamedGrows(x.chain, lows, lows');
    }
    hide Named;
  }

  // ------------------------------------------------------------------------------------
  // What a snapshot tells
  // ------------------------------------------------------------------------------------

  lemma OpenFacts(t: State, id: NodeId)
    requires Inv(t) && Open(t, id)
    ensures id in t.inners && id in t.lows && id !in t.innerPending && id !in t.leaves.pending
    ensures var c := t.inners[id];
            WellFormed(c) && Named(c, t.lows) && t.lows[id] == LowOf(c) && !c.Remove? && !c.Abort?
  {
    hide WellFormed, Named, LowOf, LeafLevel.Inv, LeavesNamed, SplitsPending;
    assert InnerSnapshot(id, t.inners[id]) in t.innerSeen;
    assert InnerSnapshot(id, t.inners[id]).chain == t.inners[id];
  }

  lemma SplitAbove(c: Inner)
    requires WellFormed(c) && c.Split?
    ensures StrictlyAbove(c.splitKey, LowOf(c))
  {
    assert StrictlyAbove(c.child.items[|c.child.items| - c.siblingCount].key, c.child.low);
  }

  /** The key of a split is above the low key of the split node and begins its sibling. */
  lemma SplitFacts(t: State, child: NodeId, key: int, newId: NodeId, next: High)
    requires Inv(t) && SplitSeen(t, child, key, newId, next) && child in t.lows
    ensures StrictlyAbove(key, t.lows[child]) && Names(t.lows, newId, LowAt(key))
  {
    hide WellFormed, LeafLevel.Inv, SplitsPending, Published, Current;
    if c :| LeafLevel.Snapshot(child, c) in t.leaves.seen && c.Split? && c.splitKey == key && c.sibling == newId && L.HighOf(c.child) == next {
      assert LeafLevel.Snapshot(child, c).chain == c;
    } else {
      var c :| InnerSnapshot(child, c) in t.innerSeen && c.Split? && c.splitKey == key && c.sibling == newId && HighOf(c.child) == next;
      assert InnerSnapshot(child, c).chain == c;
      SplitAbove(c);
    }
  }

  // ------------------------------------------------------------------------------------
  // Steps on inner nodes
  // ------------------------------------------------------------------------------------

  /** Installing under a published NodeID a chain that begins where it should and is well named. */
  lemma InstallKeeps(t: State, id: NodeId, c: Inner)
    requires Inv(t) && id in t.inners && id in t.lows
    requires WellFormed(c) && Named(c, t.lows) && LowOf(c) == t.lows[id]
    ensures Inv(Install(t, id, c))
  {
    hide *;
    InvParts(t);
    InvParts(Install(t, id, c));
    InstallIs(t, id, c);
    NotPending(t, id);
    InnersNamedMore(t.innerSeen, t.innerPending, t.lows, t.nextId, InnerSnapshot(id, c));
    PublishedInstall(t, id, c);
    CurrentInstall(t, id, c);
    SplitsPendingInstall(t, id, c);
  }

  lemma InvParts(t: State)
    ensures Inv(t) <==>
      && LeafLevel.Inv(t.leaves)
      && LeavesNamed(t.leaves.seen, t.leaves.pending, t.lows, t.nextId)
      && InnersNamed(t.innerSeen, t.innerPending, t.lows, t.nextId)
      && Published(t) && Current(t) && SplitsPending(t)
  {
    hide LeafLevel.Inv, LeavesNamed, InnersNamed, Published, Current, SplitsPending;
  }

  lemma InstallIs(t: State, id: NodeId, c: Inner)
    ensures Install(t, id, c) == t.(inners := t.inners[id := c], innerSeen := t.innerSeen + {InnerSnapshot(id, c)})
  {
  }

  lemma NotPending(t: State, id: NodeId)
    requires Published(t) && id in t.lows
    ensures id !in t.innerPending && id !in t.leaves.pending && id < t.nextId
  {
  }

  lemma InnersNamedMore(seen: set<InnerSnapshot>, pending: map<NodeId, InnerPending>, lows: map<NodeId, Low>, nextId: NodeId, y: InnerSnapshot)
    requires InnersNamed(seen, pending, lows, nextId)
    requires WellFormed(y.chain) && y.id < nextId && Named(y.chain, lows)
    requires y.id in lows ==> lows[y.id] == LowOf(y.chain)
    requires y.id in pending ==> LowOf(y.chain) == LowAt(PendingKey(pending[y.id]))
    ensures InnersNamed(seen + {y}, pending, lows, nextId)
  {
    hide WellFormed, Named, LowOf, PendingKey;
  }

  lemma PublishedInstall(t: State, id: NodeId, c: Inner)
    requires Published(t)
    ensures Published(Install(t, id, c))
  {
  }

  lemma CurrentInstall(t: State, id: NodeId, c: Inner)
    requires Current(t)
    ensures Current(Install(t, id, c))
  {
  }

  lemma SplitsPendingInstall(t: State, id: NodeId, c: Inner)
    requires SplitsPending(t) && id !in t.innerPending && id !in t.leaves.pending
    ensures SplitsPending(Install(t, id, c))
  {
    hide Sibling;
  }

  lemma PostInsertStep(t: State, step: Step)
    requires Inv(t) && step.PostInsert? && Enabled(t, step)
    ensures Inv(After(t, step))
  {
    hide *;
    EnabledPost(t, step);
    OpenFacts(t, step.id);
    SplitFacts(t, step.child, step.key, step.newId, step.next);
    var c := t.inners[step.id];
    AboveChild(c, step.child, t.lows, step.key);
    InsertFormed(c, Sep(step.key, step.newId), step.next, step.loc, t.lows);
    InstallKeeps(t, step.id, Insert(Sep(step.key, step.newId), step.next, step.loc, c));
  }

  lemma EnabledPost(t: State, step: Step)
    requires Enabled(t, step) && (step.PostInsert? || step.PostDelete?)
    ensures Open(t, step.id) && step.id in t.inners && ChildNamed(t.inners[step.id], step.child, t.lows) && step.child in t.lows
    ensures BelowHigh(step.key, HighOf(t.inners[step.id])) && Located(BaseFor(t.inners[step.id], step.key), step.key, step.loc)
    ensures Has(t.inners[step.id], step.key) <==> step.PostDelete?
    ensures step.PostInsert? ==> SplitSeen(t, step.child, step.key, step.newId, step.next)
    ensures step.PostInsert? ==> After(t, step) == Install(t, step.id, Insert(Sep(step.key, step.newId), step.next, step.loc, t.inners[step.id]))
    ensures step.PostDelete? && t.lows[step.child].LowAt? ==> t.lows[step.child].key == step.prevKey
    ensures step.PostDelete? ==> After(t, step) == Install(t, step.id, Delete(Sep(step.key, step.removed), Sep(step.prevKey, step.child), step.next, step.loc, t.inners[step.id]))
  {
    hide SplitSeen, MergeSeen, Located, Has, Install, HighOf, BaseFor;
  }

  lemma AboveChild(c: Inner, child: NodeId, lows: map<NodeId, Low>, key: int)
    requires ChildNamed(c, child, lows) && StrictlyAbove(key, lows[child])
    ensures StrictlyAbove(key, LowOf(c))
  {
  }

  lemma InsertFormed(c: Inner, item: Sep, next: High, loc: nat, lows: map<NodeId, Low>)
    requires WellFormed(c) && Named(c, lows) && !c.Remove? && !c.Abort?
    requires StrictlyAbove(item.key, LowOf(c)) && BelowHigh(item.key, HighOf(c)) && !Has(c, item.key) && Located(BaseFor(c, item.key), item.key, loc)
    requires Names(lows, item.id, LowAt(item.key))
    ensures var c' := Insert(item, next, loc, c); WellFormed(c') && Named(c', lows) && LowOf(c') == LowOf(c)
  {
  }

  lemma PostDeleteStep(t: State, step: Step)
    requires Inv(t) && step.PostDelete? && Enabled(t, step)
    ensures Inv(After(t, step))
  {
    hide *;
    EnabledPost(t, step);
    OpenFacts(t, step.id);
    var c := t.inners[step.id];
    DeleteFormed(c, Sep(step.key, step.removed), Sep(step.prevKey, step.child), step.next, step.loc, t.lows);
    InstallKeeps(t, step.id, Delete(Sep(step.key, step.removed), Sep(step.prevKey, step.child), step.next, step.loc, c));
  }

  lemma DeleteFormed(c: Inner, item: Sep, prev: Sep, next: High, loc: nat, lows: map<NodeId, Low>)
    requires WellFormed(c) && Named(c, lows) && !c.Remove? && !c.Abort?
    requires Has(c, item.key) && Located(BaseFor(c, item.key), item.key, loc)
    requires ChildNamed(c, prev.id, lows) && (lows[prev.id].LowAt? ==> lows[prev.id].key == prev.key)
    ensures var c' := Delete(item, prev, next, loc, c); WellFormed(c') && Named(c', lows) && LowOf(c') == LowOf(c)
  {
  }

  lemma ConsolidateStep(t: State, step: Step)
    requires Inv(t) && step.ConsolidateInner? && Enabled(t, step)
    ensures Inv(After(t, step))
  {
    hide *;
    EnabledConsolidate(t, step);
    OpenFacts(t, step.id);
    BaseNamed(t.inners[step.id], step.base, t.lows);
    InstallKeeps(t, step.id, step.base);
  }

  lemma EnabledConsolidate(t: State, step: Step)
    requires Enabled(t, step) && step.ConsolidateInner?
    ensures Open(t, step.id) && step.id in t.inners
    ensures var c := t.inners[step.id];
            && step.base.Base? && LowOf(step.base) == LowOf(c) && step.base.high == HighOf(c)
            && WellFormed(step.base) && Seps(step.base) == Seps(c) && LowIdOf(step.base) == LowIdOf(c)
    ensures After(t, step) == Install(t, step.id, step.base)
  {
    hide WellFormed, Seps, LowIdOf, Install, HighOf;
  }

  /** A base with the separators and bounds of a well-named chain is well named. */
  lemma BaseNamed(c: Inner, base: Inner, lows: map<NodeId, Low>)
    requires WellFormed(c) && Named(c, lows)
    requires base.Base? && LowOf(base) == LowOf(c) && base.high == HighOf(c) && WellFormed(base)
    requires Seps(base) == Seps(c) && LowIdOf(base) == LowIdOf(c)
    ensures Named(base, lows)
  {
    LowIdNamed(c, lows);
    HighIsNamed(c, lows);
    BaseOrdered(base);
    BaseSeps(base);
    assert LowIdOf(base) == base.items[0].id && base.low == LowOf(base);
    hide WellFormed, Seps, LowIdOf, HighOf, LowOf, Names, HighNamed;
    forall i | 1 <= i < |base.items|
      ensures Names(lows, base.items[i].id, LowAt(base.items[i].key))
    {
      SepNamed(c, lows, base.items[i]);
    }
  }

  lemma {:induction false} SepNamed(c: Inner, lows: map<NodeId, Low>, s: Sep)
    requires WellFormed(c) && Named(c, lows) && s in Seps(c)
    ensures Names(lows, s.id, LowAt(s.key))
  {
    hide Located, Has;
    match c
    case Base(_, _, items) =>
    case Insert(item, _, _, child) => if s != item { SepNamed(child, lows, s); }
    case Delete(_, _, _, _, child) => SepNamed(child, lows, s);
    case Split(_, _, _, child) => SepNamed(child, lows, s);
    case Merge(k, _, right, child) =>
      if s in Seps(child) {
        SepNamed(child, lows, s);
      } else if s in Seps(right) {
        SepNamed(right, lows, s);
      } else {
        LowIdNamed(right, lows);
      }
    case Remove(_, child) => SepNamed(child, lows, s);
    case Abort(child) => SepNamed(child, lows, s);
  }

  lemma PlainStep(t: State, step: Step)
    requires Inv(t) && (step.RemoveInner? || step.InstallAbort?) && Enabled(t, step)
    ensures Inv(After(t, step))
  {
    hide *;
    EnabledPlain(t, step);
    OpenFacts(t, step.id);
    var c := t.inners[step.id];
    PlainFormed(c, step.id, t.lows);
    InstallKeeps(t, step.id, if step.RemoveInner? then Remove(step.id, c) else Abort(c));
  }

  lemma EnabledPlain(t: State, step: Step)
    requires Enabled(t, step) && (step.RemoveInner? || step.InstallAbort?)
    ensures Open(t, step.id) && step.id in t.inners && (step.RemoveInner? ==> t.inners[step.id].Base?)
    ensures After(t, step) == Install(t, step.id, if step.RemoveInner? then Remove(step.id, t.inners[step.id]) else Abort(t.inners[step.id]))
  {
    hide Install;
  }

  lemma PlainFormed(c: Inner, id: NodeId, lows: map<NodeId, Low>)
    requires WellFormed(c) && Named(c, lows) && !c.Remove? && !c.Abort?
    ensures c.Base? ==> WellFormed(Remove(id, c)) && Named(Remove(id, c), lows) && LowOf(Remove(id, c)) == LowOf(c)
    ensures WellFormed(Abort(c)) && Named(Abort(c), lows) && LowOf(Abort(c)) == LowOf(c)
  {
  }

  lemma RemoveAbortStep(t: State, step: Step)
    requires Inv(t) && step.RemoveAbort? && Enabled(t, step)
    ensures Inv(After(t, step))
  {
    hide *;
    EnabledRemoveAbort(t, step);
    AbortFacts(t, step.id);
    InstallKeeps(t, step.id, t.inners[step.id].child);
  }

  lemma EnabledRemoveAbort(t: State, step: Step)
    requires Enabled(t, step) && step.RemoveAbort?
    ensures step.id in t.inners && step.id in t.lows && t.inners[step.id].Abort? && After(t, step) == Install(t, step.id, t.inners[step.id].child)
  {
    hide Install;
  }

  lemma AbortFacts(t: State, id: NodeId)
    requires Inv(t) && id in t.inners && id in t.lows && t.inners[id].Abort?
    ensures var c := t.inners[id].child; WellFormed(c) && Named(c, t.lows) && t.lows[id] == LowOf(c)
  {
    hide LeafLevel.Inv, LeavesNamed, SplitsPending;
    assert InnerSnapshot(id, t.inners[id]) in t.innerSeen;
    assert InnerSnapshot(id, t.inners[id]).chain == t.inners[id];
  }

  lemma MergeInnerStep(t: State, step: Step)
    requires Inv(t) && step.MergeInner? && Enabled(t, step)
    ensures Inv(After(t, step))
  {
    hide *;
    EnabledMergeInner(t, step);
    OpenFacts(t, step.id);
    RemovedFacts(t, step.removed, step.right);
    var c := t.inners[step.id];
    HighIsNamed(c, t.lows);
    NextBegins(c, step.removed, step.right, t.lows);
    MergeFormed(c, HighOf(c).key, step.removed, step.right, t.lows);
    InstallKeeps(t, step.id, Merge(HighOf(c).key, step.removed, step.right, c));
  }

  lemma EnabledMergeInner(t: State, step: Step)
    requires Enabled(t, step) && step.MergeInner?
    ensures Open(t, step.id) && step.id in t.inners && InnerSnapshot(step.removed, Remove(step.removed, step.right)) in t.innerSeen
    ensures HighOf(t.inners[step.id]).HighAt? && HighOf(t.inners[step.id]).next == step.removed
    ensures After(t, step) == Install(t, step.id, Merge(HighOf(t.inners[step.id]).key, step.removed, step.right, t.inners[step.id]))
  {
    hide Install, HighOf;
  }

  lemma RemovedFacts(t: State, id: NodeId, right: Inner)
    requires Inv(t) && InnerSnapshot(id, Remove(id, right)) in t.innerSeen
    ensures WellFormed(right) && right.Base? && Named(right, t.lows) && (id in t.lows ==> t.lows[id] == LowOf(right))
  {
    hide LeafLevel.Inv, LeavesNamed, SplitsPending, Published, Current;
    assert InnerSnapshot(id, Remove(id, right)).chain == Remove(id, right);
  }

  lemma NextBegins(c: Inner, removed: NodeId, right: Inner, lows: map<NodeId, Low>)
    requires HighNamed(HighOf(c), lows) && HighOf(c).HighAt? && HighOf(c).next == removed
    requires removed in lows ==> lows[removed] == LowOf(right)
    ensures LowOf(right) == LowAt(HighOf(c).key) && HighOf(c) == HighAt(HighOf(c).key, removed)
  {
    hide LowOf, HighOf;
  }

  lemma MergeFormed(c: Inner, k: int, removed: NodeId, right: Inner, lows: map<NodeId, Low>)
    requires WellFormed(c) && WellFormed(right) && Named(c, lows) && Named(right, lows)
    requires !c.Remove? && !c.Abort? && right.Base? && HighOf(c) == HighAt(k, removed) && LowOf(right) == LowAt(k)
    ensures var c' := Merge(k, removed, right, c); WellFormed(c') && Named(c', lows) && LowOf(c') == LowOf(c)
  {
    LowStrictlyBelowHigh(c);
    LowIdNamed(c, lows);
    LowIdNamed(right, lows);
    assert LowIds(right) == {LowIdOf(right)};
    assert BelowHigh(k, HighOf(right));
  }

  lemma {:induction false} LowStrictlyBelowHigh(c: Inner)
    requires WellFormed(c)
    ensures LowOf(c).LowAt? ==> BelowHigh(LowOf(c).key, HighOf(c))
  {
    hide Located, Has;
    match c
    case Base(_, _, _) =>
    case Split(_, _, _, _) => SplitAbove(c);
    case Merge(_, _, right, child) =>
    case _ => LowStrictlyBelowHigh(c.child);
  }

  // ------------------------------------------------------------------------------------
  // Splitting inner nodes
  // ------------------------------------------------------------------------------------

  lemma PrepareInnerStep(t: State, step: Step)
    requires Inv(t) && step.PrepareInnerSplit? && Enabled(t, step)
    ensures Inv(After(t, step))
  {
    hide *;
    EnabledPrepare(t, step);
    InvParts(t);
    var n, p := t.nextId, InnerPending(step.id, step.base, |step.base.items| / 2);
    var t' := After(t, step);
    InvParts(t');
    SnapshotFacts(t, step.id, step.base);
    SiblingFormed(p, t.lows);
    AllBelow(t);
    ExtendsItself(t.lows);
    InnersStayNamed(t.innerSeen, t.innerPending, t.lows, t.nextId, t'.innerPending, t.lows, t'.nextId);
    InnersNamedMore(t.innerSeen, t'.innerPending, t.lows, t'.nextId, InnerSnapshot(n, Sibling(p)));
    LeavesStayNamed(t.leaves.seen, t.leaves.pending, t.lows, t.nextId, t.leaves.pending, t.lows, t'.nextId);
    PreparedPublished(t, t', n);
    PreparedPending(t, t', n, p);
  }

  lemma EnabledPrepare(t: State, step: Step)
    requires Enabled(t, step) && step.PrepareInnerSplit?
    ensures step.base.Base? && 1 <= |step.base.items| / 2 < |step.base.items| && InnerSnapshot(step.id, step.base) in t.innerSeen
    ensures var p := InnerPending(step.id, step.base, |step.base.items| / 2);
            After(t, step) == t.(inners := t.inners[t.nextId := Sibling(p)], innerSeen := t.innerSeen + {InnerSnapshot(t.nextId, Sibling(p))},
                                 innerPending := t.innerPending[t.nextId := p], nextId := t.nextId + 1)
  {
    hide Sibling;
  }

  lemma SnapshotFacts(t: State, id: NodeId, c: Inner)
    requires InnersNamed(t.innerSeen, t.innerPending, t.lows, t.nextId) && InnerSnapshot(id, c) in t.innerSeen
    ensures WellFormed(c) && Named(c, t.lows) && (id in t.lows ==> t.lows[id] == LowOf(c))
  {
    hide WellFormed, Named, LowOf;
    assert InnerSnapshot(id, c).chain == c;
  }

  lemma SiblingFormed(p: InnerPending, lows: map<NodeId, Low>)
    requires p.base.Base? && 1 <= p.index < |p.base.items| && WellFormed(p.base) && Named(p.base, lows)
    ensures WellFormed(Sibling(p)) && Named(Sibling(p), lows) && LowOf(Sibling(p)) == LowAt(PendingKey(p))
  {
    var items := p.base.items[p.index..];
    assert forall i :: 0 <= i < |items| ==> items[i] == p.base.items[p.index + i];
  }

  /** Ids in use are smaller than the next one. */
  lemma AllBelow(t: State)
    requires Inv(t)
    ensures forall x :: x in t.innerSeen ==> x.id < t.nextId
    ensures forall x :: x in t.leaves.seen ==> x.id < t.nextId
    ensures forall n :: n in t.lows || n in t.leaves.pending || n in t.innerPending || n in t.inners || n in t.leaves.table ==> n < t.nextId
  {
    hide LeafLevel.Inv, LeafLevel.Live, WellFormed, Named, LowOf, Sibling, PendingKey;
    forall n | n in t.inners
      ensures n < t.nextId
    {
      assert InnerSnapshot(n, t.inners[n]) in t.innerSeen;
    }
    forall n | n in t.leaves.table
      ensures n < t.nextId
    {
      assert LeafLevel.Snapshot(n, t.leaves.table[n]) in t.leaves.seen;
    }
  }

  lemma PreparedPublished(t: State, t': State, n: NodeId)
    requires Published(t) && Current(t) && n == t.nextId && t'.nextId == n + 1 && n in t'.inners
    requires t'.leaves == t.leaves && t'.root == t.root && t'.lows == t.lows && t'.inners == t.inners[n := t'.inners[n]]
    requires t'.innerSeen == t.innerSeen + {InnerSnapshot(n, t'.inners[n])} && forall m :: m in t'.innerPending ==> m in t.innerPending || m == n
    ensures Published(t') && Current(t')
  {
  }

  lemma PreparedPending(t: State, t': State, n: NodeId, p: InnerPending)
    requires SplitsPending(t) && n == t.nextId && t'.nextId == n + 1
    requires forall x :: x in t.leaves.seen ==> x.id < n
    requires p.base.Base? && 1 <= p.index < |p.base.items| && InnerSnapshot(p.left, p.base) in t.innerSeen
    requires t' == t.(inners := t.inners[n := Sibling(p)], innerSeen := t.innerSeen + {InnerSnapshot(n, Sibling(p))},
                      innerPending := t.innerPending[n := p], nextId := n + 1)
    ensures SplitsPending(t')
  {
    hide Sibling;
  }

  lemma DropInnerStep(t: State, step: Step)
    requires Inv(t) && step.DropInnerSplit? && Enabled(t, step)
    ensures Inv(After(t, step))
  {
    hide *;
    EnabledDrop(t, step);
    InvParts(t);
    var t' := After(t, step);
    InvParts(t');
    ExtendsItself(t.lows);
    InnersStayNamed(t.innerSeen, t.innerPending, t.lows, t.nextId, t'.innerPending, t.lows, t.nextId);
    DroppedParts(t, t', step.newId);
  }

  lemma EnabledDrop(t: State, step: Step)
    requires Enabled(t, step) && step.DropInnerSplit?
    ensures step.newId in t.innerPending
    ensures After(t, step) == t.(inners := t.inners - {step.newId}, innerPending := t.innerPending - {step.newId})
  {
  }

  lemma DroppedParts(t: State, t': State, n: NodeId)
    requires Published(t) && Current(t) && SplitsPending(t) && n in t.innerPending
    requires t' == t.(inners := t.inners - {n}, innerPending := t.innerPending - {n})
    ensures Published(t') && Current(t') && SplitsPending(t')
  {
    hide Sibling;
  }

  lemma InstallInnerSplitStep(t: State, step: Step)
    requires Inv(t) && step.InstallInnerSplit? && Enabled(t, step)
    ensures Inv(After(t, step))
  {
    hide *;
    EnabledSplit(t, step);
    InvParts(t);
    var n, p := step.newId, t.innerPending[step.newId];
    PendingFacts(t, n);
    OpenFacts(t, p.left);
    var lows' := t.lows[n := LowAt(PendingKey(p))];
    var t1 := t.(innerPending := t.innerPending - {n}, lows := lows');
    PublishPending(t, t1, n);
    var c := Split(PendingKey(p), n, PendingCount(p), p.base);
    NamedGrows(p.base, t.lows, lows');
    SplitFormed(p, n, lows');
    InstallKeeps(t1, p.left, c);
    InstallIs(t1, p.left, c);
  }

  lemma EnabledSplit(t: State, step: Step)
    requires Enabled(t, step) && step.InstallInnerSplit?
    ensures step.newId in t.innerPending
    ensures var n, p := step.newId, t.innerPending[step.newId];
            && Open(t, p.left) && p.left in t.inners && p.left in t.lows && t.inners[p.left] == p.base
            && After(t, step) == t.(inners := t.inners[p.left := Split(PendingKey(p), n, PendingCount(p), p.base)],
                                    innerSeen := t.innerSeen + {InnerSnapshot(p.left, Split(PendingKey(p), n, PendingCount(p), p.base))},
                                    innerPending := t.innerPending - {n}, lows := t.lows[n := LowAt(PendingKey(p))])
  {
    hide PendingKey, PendingCount;
  }

  lemma PendingFacts(t: State, n: NodeId)
    requires SplitsPending(t) && Published(t) && n in t.innerPending
    ensures n !in t.lows && n in t.inners && n !in t.leaves.pending && n < t.nextId
    ensures var p := t.innerPending[n]; p.base.Base? && 1 <= p.index < |p.base.items|
    ensures forall x :: x in t.leaves.seen ==> x.id != n
  {
    hide Sibling;
  }

  /** When the split is about to be installed its sibling gets its name. */
  lemma PublishPending(t: State, t1: State, n: NodeId)
    requires Inv(t) && n in t.innerPending
    requires t1 == t.(innerPending := t.innerPending - {n}, lows := t.lows[n := LowAt(PendingKey(t.innerPending[n]))])
    ensures Inv(t1) && Extends(t.lows, t1.lows)
  {
    hide *;
    InvParts(t);
    InvParts(t1);
    PendingFacts(t, n);
    ExtendsBy(t.lows, n, LowAt(PendingKey(t.innerPending[n])));
    SeenPending(t, n);
    LeavesStayNamed(t.leaves.seen, t.leaves.pending, t.lows, t.nextId, t.leaves.pending, t1.lows, t.nextId);
    InnersStayNamed(t.innerSeen, t.innerPending, t.lows, t.nextId, t1.innerPending, t1.lows, t.nextId);
    PublishedParts(t, t1, n);
  }

  lemma ExtendsItself(lows: map<NodeId, Low>)
    ensures Extends(lows, lows)
  {
  }

  lemma ExtendsBy(lows: map<NodeId, Low>, n: NodeId, low: Low)
    requires n !in lows
    ensures Extends(lows, lows[n := low])
  {
  }

  lemma SeenPending(t: State, n: NodeId)
    requires InnersNamed(t.innerSeen, t.innerPending, t.lows, t.nextId) && n in t.innerPending
    ensures forall x :: x in t.innerSeen && x.id == n ==> LowOf(x.chain) == LowAt(PendingKey(t.innerPending[n]))
  {
    hide WellFormed, Named, LowOf, PendingKey;
  }

  lemma PublishedParts(t: State, t1: State, n: NodeId)
    requires Published(t) && Current(t) && SplitsPending(t) && n in t.innerPending
    requires n !in t.lows && n in t.inners && n !in t.leaves.pending && n < t.nextId && n in t1.lows
    requires t1 == t.(innerPending := t.innerPending - {n}, lows := t.lows[n := t1.lows[n]])
    ensures Published(t1) && Current(t1) && SplitsPending(t1)
  {
    hide Sibling;
  }

  lemma SplitFormed(p: InnerPending, n: NodeId, lows: map<NodeId, Low>)
    requires p.base.Base? && 1 <= p.index < |p.base.items| && WellFormed(p.base) && Named(p.base, lows)
    requires n in lows && lows[n] == LowAt(PendingKey(p))
    ensures var c := Split(PendingKey(p), n, PendingCount(p), p.base);
            WellFormed(c) && Named(c, lows) && LowOf(c) == LowOf(p.base)
  {
  }

  lemma SplitRootStep(t: State, step: Step)
    requires Inv(t) && step.SplitRoot? && Enabled(t, step)
    ensures Inv(After(t, step))
  {
    hide *;
    var n := t.nextId;
    var c := Base(NegInf, PosInf, [Sep(0, t.root), Sep(step.key, step.sibling)]);
    InvParts(t);
    EnabledRoot(t, step);
    AllBelow(t);
    var lows' := t.lows[n := NegInf];
    ExtendsBy(t.lows, n, NegInf);
    var t' := After(t, step);
    InvParts(t');
    LeavesStayNamed(t.leaves.seen, t.leaves.pending, t.lows, t.nextId, t.leaves.pending, lows', t'.nextId);
    InnersStayNamed(t.innerSeen, t.innerPending, t.lows, t.nextId, t.innerPending, lows', t'.nextId);
    RootFormed(t.lows, lows', t.root, step.key, step.sibling);
    InnersNamedMore(t.innerSeen, t.innerPending, lows', t'.nextId, InnerSnapshot(n, c));
    RootParts(t, t', n, c);
  }

  lemma EnabledRoot(t: State, step: Step)
    requires Inv(t) && Enabled(t, step) && step.SplitRoot?
    ensures Names(t.lows, t.root, NegInf) && Names(t.lows, step.sibling, LowAt(step.key))
    ensures var c := Base(NegInf, PosInf, [Sep(0, t.root), Sep(step.key, step.sibling)]);
            After(t, step) == t.(inners := t.inners[t.nextId := c], innerSeen := t.innerSeen + {InnerSnapshot(t.nextId, c)},
                                 root := t.nextId, lows := t.lows[t.nextId := NegInf], nextId := t.nextId + 1)
  {
    hide LeafLevel.Inv, WellFormed, LeavesNamed, SplitsPending, Current;
    var c :| InnerSnapshot(t.root, c) in t.innerSeen && c.Split? && c.splitKey == step.key && c.sibling == step.sibling;
    SnapshotFacts(t, t.root, c);
  }

  lemma RootFormed(lows: map<NodeId, Low>, lows': map<NodeId, Low>, root: NodeId, key: int, sibling: NodeId)
    requires Names(lows, root, NegInf) && Names(lows, sibling, LowAt(key)) && Extends(lows, lows')
    ensures var c := Base(NegInf, PosInf, [Sep(0, root), Sep(key, sibling)]);
            WellFormed(c) && Named(c, lows') && LowOf(c) == NegInf
  {
  }

  lemma RootParts(t: State, t': State, n: NodeId, c: Inner)
    requires Published(t) && Current(t) && SplitsPending(t) && n == t.nextId
    requires forall x :: x in t.leaves.seen ==> x.id < n
    requires t' == t.(inners := t.inners[n := c], innerSeen := t.innerSeen + {InnerSnapshot(n, c)}, root := n, lows := t.lows[n := NegInf], nextId := n + 1)
    ensures Published(t') && Current(t') && SplitsPending(t')
  {
    hide Sibling;
  }

  // ------------------------------------------------------------------------------------
  // Steps on leaves
  // ------------------------------------------------------------------------------------

  lemma LeafTable(t: State, id: NodeId)
    requires Inv(t) && LeafLevel.Reachable(t.leaves, id)
    ensures LeafLevel.Live(t.leaves.table[id]) && HighNamed(L.HighOf(t.leaves.table[id]), t.lows) && id < t.nextId
    ensures id in t.lows ==> t.lows[id] == L.LowOf(t.leaves.table[id])
    ensures id !in t.leaves.pending && id !in t.innerPending
  {
    hide LeafLevel.Inv, LeafLevel.Live, L.HighOf, L.LowOf, InnersNamed, Sibling;
    var x := LeafLevel.Snapshot(id, t.leaves.table[id]);
    assert x in t.leaves.seen && x.chain == t.leaves.table[id];
  }

  /** A leaf is replaced by a chain that begins where it did. */
  lemma LeafInstallKeeps(t: State, t': State, id: NodeId, c: L.Chain)
    requires Inv(t) && LeafLevel.Reachable(t.leaves, id)
    requires LeafLevel.Inv(t'.leaves) && t' == t.(leaves := t'.leaves) && t'.leaves.pending == t.leaves.pending
    requires t'.leaves.table == t.leaves.table[id := c] && t'.leaves.seen == t.leaves.seen + {LeafLevel.Snapshot(id, c)}
    requires LeafLevel.Live(c) && HighNamed(L.HighOf(c), t.lows) && L.LowOf(c) == L.LowOf(t.leaves.table[id])
    ensures Inv(t')
  {
    hide *;
    InvParts(t);
    InvParts(t');
    ReachableIs(t, id);
    LeafTable(t, id);
    LeavesNamedMore(t.leaves.seen, t.leaves.pending, t.lows, t.nextId, LeafLevel.Snapshot(id, c));
    LeafParts(t, t', id, c);
  }

  lemma ReachableIs(t: State, id: NodeId)
    ensures LeafLevel.Reachable(t.leaves, id) <==> id in t.leaves.table && id !in t.leaves.pending
  {
  }

  lemma LeavesNamedMore(seen: set<LeafLevel.Snapshot>, pending: map<NodeId, LeafLevel.Pending>, lows: map<NodeId, Low>, nextId: NodeId, y: LeafLevel.Snapshot)
    requires LeavesNamed(seen, pending, lows, nextId)
    requires LeafLevel.Live(y.chain) && y.id < nextId && HighNamed(L.HighOf(y.chain), lows)
    requires y.id in lows ==> lows[y.id] == L.LowOf(y.chain)
    requires y.id in pending ==> L.LowOf(y.chain) == LowAt(pending[y.id].key)
    ensures LeavesNamed(seen + {y}, pending, lows, nextId)
  {
    hide LeafLevel.Live, L.LowOf, L.HighOf;
  }

  lemma LeafParts(t: State, t': State, id: NodeId, c: L.Chain)
    requires Published(t) && Current(t) && SplitsPending(t) && id in t.leaves.table && id !in t.leaves.pending && id !in t.innerPending
    requires t' == t.(leaves := t'.leaves) && t'.leaves.pending == t.leaves.pending
    requires t'.leaves.table == t.leaves.table[id := c] && t'.leaves.seen == t.leaves.seen + {LeafLevel.Snapshot(id, c)}
    ensures Published(t') && Current(t') && SplitsPending(t')
  {
    hide Sibling;
  }

  lemma EnabledOnLeaves(t: State, step: Step)
    requires Enabled(t, step) && step.OnLeaves?
    ensures LeafLevel.Enabled(t.leaves, step.step) && (step.step.PrepareSplit? ==> step.step.newId == t.nextId)
    ensures step.step.InstallSplit? ==> step.step.newId in t.leaves.pending
    ensures var t', s := After(t, step), step.step;
            && t'.leaves == LeafLevel.After(t.leaves, s)
            && (s.PrepareSplit? ==> t' == t.(leaves := t'.leaves, nextId := t.nextId + 1))
            && (s.InstallSplit? ==> t' == t.(leaves := t'.leaves, lows := t.lows[s.newId := LowAt(t.leaves.pending[s.newId].key)]))
            && (!s.PrepareSplit? && !s.InstallSplit? ==> t' == t.(leaves := t'.leaves))
  {
    hide LeafLevel.After, L.Replay, LeafLevel.Live, L.WellFormed;
  }

  lemma LeafItemStep(t: State, step: Step)
    requires Inv(t) && step.OnLeaves? && (step.step.InsertItem? || step.step.DeleteItem?) && Enabled(t, step)
    ensures Inv(After(t, step))
  {
    hide *;
    EnabledOnLeaves(t, step);
    var s, l := step.step, t.leaves;
    InvParts(t);
    if s.InsertItem? { LeafLevel.InsertStep(l, s); } else { LeafLevel.DeleteStep(l, s); }
    LeafLevel.EnabledItem(l, s);
    ReachableIs(t, s.id);
    LeafTable(t, s.id);
    var c := l.table[s.id];
    LeafLevel.ItemDelta(c, s.item, s.index, s.exists_);
    var c' := if s.InsertItem? then L.Insert(s.item, s.index, s.exists_, c) else L.Delete(s.item, s.index, s.exists_, c);
    LeafInstallIs(l, s.id, c');
    LeafInstallKeeps(t, After(t, step), s.id, c');
  }

  lemma LeafInstallIs(l: LeafLevel.State, id: NodeId, c: L.Chain)
    ensures LeafLevel.Install(l, id, c) == l.(table := l.table[id := c], seen := l.seen + {LeafLevel.Snapshot(id, c)})
  {
  }

  lemma LeafSameStep(t: State, step: Step)
    requires Inv(t) && step.OnLeaves? && (step.step.Consolidate? || step.step.InstallRemove?) && Enabled(t, step)
    ensures Inv(After(t, step))
  {
    hide *;
    EnabledOnLeaves(t, step);
    var s, l := step.step, t.leaves;
    InvParts(t);
    if s.Consolidate? {
      LeafLevel.ConsolidateStep(l, s);
      LeafLevel.EnabledConsolidate(l, s);
    } else {
      LeafLevel.RemoveStep(l, s);
      LeafLevel.EnabledRemove(l, s);
    }
    ReachableIs(t, s.id);
    LeafTable(t, s.id);
    var c := l.table[s.id];
    var c' := if s.Consolidate? then s.leaf else L.Remove(s.id, c);
    if s.InstallRemove? { LeafLevel.RemoveDelta(c, s.id); }
    LeafInstallIs(l, s.id, c');
    LeafInstallKeeps(t, After(t, step), s.id, c');
  }

  lemma LeafMergeStep(t: State, step: Step)
    requires Inv(t) && step.OnLeaves? && step.step.InstallMerge? && Enabled(t, step)
    ensures Inv(After(t, step))
  {
    hide *;
    EnabledOnLeaves(t, step);
    var s, l := step.step, t.leaves;
    InvParts(t);
    LeafLevel.MergeStep(l, s);
    LeafLevel.InvParts(l);
    LeafLevel.EnabledMerge(l, s);
    ReachableIs(t, s.id);
    LeafTable(t, s.id);
    var c := l.table[s.id];
    var c' := L.Merge(L.HighOf(c).key, s.removed, s.right, c);
    var l' := LeafLevel.After(l, s);
    var i := LeafLevel.InOrder(l', s.id);
    MergeBounds(L.HighOf(c).key, s.removed, s.right, c);
    RemovedLeaf(t, s.removed, s.right);
    LeafInstallKeeps(t, After(t, step), s.id, c');
  }

  lemma MergeBounds(k: int, removed: NodeId, right: L.Chain, c: L.Chain)
    ensures var c' := L.Merge(k, removed, right, c);
            L.LowOf(c') == L.LowOf(c) && L.HighOf(c') == L.HighOf(right) && L.HighOf(L.Remove(removed, right)) == L.HighOf(right)
  {
  }

  lemma RemovedLeaf(t: State, removed: NodeId, right: L.Chain)
    requires Inv(t) && removed in t.leaves.table && t.leaves.table[removed] == L.Remove(removed, right)
    ensures HighNamed(L.HighOf(L.Remove(removed, right)), t.lows)
  {
    hide LeafLevel.Inv, LeafLevel.Live, L.HighOf, L.LowOf, InnersNamed, Sibling;
    var x := LeafLevel.Snapshot(removed, t.leaves.table[removed]);
    assert x in t.leaves.seen && x.chain == t.leaves.table[removed];
  }

  lemma LeafPrepareStep(t: State, step: Step)
    requires Inv(t) && step.OnLeaves? && step.step.PrepareSplit? && Enabled(t, step)
    ensures Inv(After(t, step))
  {
    hide *;
    EnabledOnLeaves(t, step);
    var s, l := step.step, t.leaves;
    InvParts(t);
    LeafLevel.PrepareStep(l, s);
    LeafLevel.EnabledPrepare(l, s);
    var p := LeafLevel.Pending(s.id, s.base, s.key, s.count);
    var t' := After(t, step);
    InvParts(t');
    AllBelow(t);
    ExtendsItself(t.lows);
    BaseNamedLeaf(t, step);
    LeavesStayNamed(l.seen, l.pending, t.lows, t.nextId, t'.leaves.pending, t.lows, t'.nextId);
    LeavesNamedMore(l.seen, t'.leaves.pending, t.lows, t'.nextId, LeafLevel.Snapshot(s.newId, LeafLevel.Sibling(p)));
    InnersStayNamed(t.innerSeen, t.innerPending, t.lows, t.nextId, t.innerPending, t.lows, t'.nextId);
    LeafPreparedParts(t, t', s.newId, p);
  }

  lemma BaseNamedLeaf(t: State, step: Step)
    requires Inv(t) && step.OnLeaves? && step.step.PrepareSplit? && Enabled(t, step)
    ensures step.step.base.Leaf? && HighNamed(step.step.base.high, t.lows)
  {
    hide LeafLevel.Inv, LeafLevel.Live, InnersNamed, Sibling;
    assert LeafLevel.Snapshot(step.step.id, step.step.base).chain == step.step.base;
  }

  lemma LeafPreparedParts(t: State, t': State, n: NodeId, p: LeafLevel.Pending)
    requires Published(t) && Current(t) && SplitsPending(t) && n == t.nextId
    requires forall x :: x in t.innerSeen ==> x.id < n
    requires t' == t.(leaves := t'.leaves, nextId := n + 1) && n in t'.leaves.table
    requires t'.leaves.table == t.leaves.table[n := t'.leaves.table[n]]
    requires t'.leaves.seen == t.leaves.seen + {LeafLevel.Snapshot(n, t'.leaves.table[n])} && t'.leaves.pending == t.leaves.pending[n := p]
    ensures Published(t') && Current(t') && SplitsPending(t')
  {
    hide Sibling;
  }

  lemma LeafDropStep(t: State, step: Step)
    requires Inv(t) && step.OnLeaves? && step.step.DropSplit? && Enabled(t, step)
    ensures Inv(After(t, step))
  {
    hide *;
    EnabledOnLeaves(t, step);
    var s, l := step.step, t.leaves;
    InvParts(t);
    LeafLevel.DropStep(l, s);
    LeafLevel.EnabledDrop(l, s);
    var t' := After(t, step);
    InvParts(t');
    ExtendsItself(t.lows);
    LeavesStayNamed(l.seen, l.pending, t.lows, t.nextId, t'.leaves.pending, t.lows, t.nextId);
    LeafDroppedParts(t, t', s.newId);
  }

  lemma LeafDroppedParts(t: State, t': State, n: NodeId)
    requires Published(t) && Current(t) && SplitsPending(t) && n in t.leaves.pending
    requires t' == t.(leaves := t.leaves.(table := t.leaves.table - {n}, pending := t.leaves.pending - {n}))
    ensures Published(t') && Current(t') && SplitsPending(t')
  {
    hide Sibling;
  }

  lemma LeafSplitStep(t: State, step: Step)
    requires Inv(t) && step.OnLeaves? && step.step.InstallSplit? && Enabled(t, step)
    ensures Inv(After(t, step))
  {
    hide *;
    EnabledOnLeaves(t, step);
    var s, l := step.step, t.leaves;
    InvParts(t);
    LeafLevel.SplitStep(l, s);
    LeafLevel.InvParts(l);
    LeafLevel.EnabledSplit(l, s);
    var n, p := s.newId, l.pending[s.newId];
    ReachableIs(t, p.left);
    LeafTable(t, p.left);
    LeafLevel.SiblingLive(p);
    var c := L.Split(p.key, n, p.count, p.base);
    var t' := After(t, step);
    InvParts(t');
    LeafPendingFacts(t, n);
    ExtendsBy(t.lows, n, LowAt(p.key));
    LeavesStayNamed(l.seen, l.pending, t.lows, t.nextId, t'.leaves.pending, t'.lows, t.nextId);
    SplitNamed(p, n, t'.lows);
    LeavesNamedMore(l.seen, t'.leaves.pending, t'.lows, t.nextId, LeafLevel.Snapshot(p.left, c));
    InnersStayNamed(t.innerSeen, t.innerPending, t.lows, t.nextId, t.innerPending, t'.lows, t.nextId);
    LeafSplitParts(t, t', n, p.left, c);
  }

  lemma LeafPendingFacts(t: State, n: NodeId)
    requires Inv(t) && n in t.leaves.pending
    ensures n !in t.lows && n in t.leaves.table && n < t.nextId && n !in t.innerPending
    ensures forall x :: x in t.innerSeen ==> x.id != n
    ensures forall x :: x in t.leaves.seen && x.id == n ==> L.LowOf(x.chain) == LowAt(t.leaves.pending[n].key)
  {
    hide LeafLevel.Inv, LeafLevel.Live, L.HighOf, L.LowOf, InnersNamed, Sibling;
  }

  lemma SplitNamed(p: LeafLevel.Pending, n: NodeId, lows: map<NodeId, Low>)
    requires n in lows && lows[n] == LowAt(p.key)
    ensures HighNamed(L.HighOf(L.Split(p.key, n, p.count, p.base)), lows)
  {
  }

  lemma LeafSplitParts(t: State, t': State, n: NodeId, id: NodeId, c: L.Chain)
    requires Published(t) && Current(t) && SplitsPending(t) && n in t.leaves.pending && n !in t.innerPending && n < t.nextId
    requires n in t.leaves.table && id in t.leaves.table && id !in t.leaves.pending && id !in t.innerPending && n in t'.lows
    requires t' == t.(leaves := t'.leaves, lows := t.lows[n := t'.lows[n]])
    requires t'.leaves.table == t.leaves.table[id := c] && t'.leaves.pending == t.leaves.pending - {n}
    requires t'.leaves.seen == t.leaves.seen + {LeafLevel.Snapshot(id, c)} && n !in t.lows
    ensures Published(t') && Current(t') && SplitsPending(t')
  {
    hide Sibling;
  }

  // ------------------------------------------------------------------------------------
  // Every step, every run
  // ------------------------------------------------------------------------------------

  /** Every step of any thread keeps the invariant, and no NodeID ever gets another low key. */
  lemma StepKeeps(t: State, step: Step)
    requires Inv(t) && Enabled(t, step)
    ensures Inv(After(t, step)) && Extends(t.lows, After(t, step).lows)
    ensures t.leaves.seen <= After(t, step).leaves.seen && t.innerSeen <= After(t, step).innerSeen
  {
    hide Inv, Enabled, After;
    NamesKept(t, step);
    match step
    case OnLeaves(s) => LeafStepKeeps(t, step);
    case PostInsert(_, _, _, _, _, _) => PostInsertStep(t, step);
    case PostDelete(_, _, _, _, _, _, _) => PostDeleteStep(t, step);
    case ConsolidateInner(_, _) => ConsolidateStep(t, step);
    case PrepareInnerSplit(_, _) => PrepareInnerStep(t, step);
    case InstallInnerSplit(_) => InstallInnerSplitStep(t, step);
    case DropInnerSplit(_) => DropInnerStep(t, step);
    case RemoveInner(_) => PlainStep(t, step);
    case MergeInner(_, _, _) => MergeInnerStep(t, step);
    case InstallAbort(_) => PlainStep(t, step);
    case RemoveAbort(_) => RemoveAbortStep(t, step);
    case SplitRoot(_, _) => SplitRootStep(t, step);
  }

  lemma LeafStepKeeps(t: State, step: Step)
    requires Inv(t) && step.OnLeaves? && Enabled(t, step)
    ensures Inv(After(t, step))
  {
    hide Inv, Enabled, After;
    match step.step
    case InsertItem(_, _, _, _) => LeafItemStep(t, step);
    case DeleteItem(_, _, _, _) => LeafItemStep(t, step);
    case Consolidate(_, _) => LeafSameStep(t, step);
    case PrepareSplit(_, _, _, _, _) => LeafPrepareStep(t, step);
    case InstallSplit(_) => LeafSplitStep(t, step);
    case DropSplit(_) => LeafDropStep(t, step);
    case InstallRemove(_) => LeafSameStep(t, step);
    case InstallMerge(_, _, _) => LeafMergeStep(t, step);
  }

  lemma NamesKept(t: State, step: Step)
    requires Inv(t) && Enabled(t, step)
    ensures Extends(t.lows, After(t, step).lows)
    ensures t.leaves.seen <= After(t, step).leaves.seen && t.innerSeen <= After(t, step).innerSeen
  {
    hide LeafLevel.Inv, LeavesNamed, InnersNamed, Current, WellFormed, Seps, Has, Located, SplitSeen, MergeSeen, Sibling, LeafLevel.Enabled;
    if step.OnLeaves? {
      EnabledOnLeaves(t, step);
      LeafSeenGrows(t.leaves, step.step);
    }
  }

  lemma LeafSeenGrows(l: LeafLevel.State, s: LeafLevel.Step)
    requires LeafLevel.Enabled(l, s)
    ensures l.seen <= LeafLevel.After(l, s).seen
  {
    hide L.WellFormed, L.Replay, L.Placed, LeafLevel.InsertedAfter, LeafLevel.Without, LeafLevel.Sibling;
  }
}
