/** Searching an inner delta chain without consolidating it. */
module InnerSearch {
  import opened BwTypes
  import opened InnerChain

  // ------------------------------------------------------------------------------------
  // What a chain promises the search
  // ------------------------------------------------------------------------------------

  /** `next` is the next larger separator of the chain, or its high key, or its right end. */
  ghost predicate SuccessorIs(c: Inner, k: int, next: High)
  {
    && (forall s :: s in Seps(c) && k < s.key ==> !BelowHigh(s.key, next))
    && (next.PosInf? || (k < next.key && (Has(c, next.key) || !BelowHigh(next.key, HighOf(c)))))
  }

  /** `prev` is the next smaller separator of the chain, or its leftmost child. */
  ghost predicate PredecessorIs(c: Inner, k: int, prev: Sep)
  {
    if prev.id == LowIdOf(c) then forall s :: s in Seps(c) ==> k <= s.key
    else prev in Seps(c) && prev.key < k && forall s :: s in Seps(c) && s.key < k ==> s.key <= prev.key
  }

  /** Every data delta was posted with the neighbours its key had then. */
  ghost predicate Exact(c: Inner)
  {
    match c
    case Base(_, _, _) => true
    case Insert(item, next, _, child) => Exact(child) && SuccessorIs(child, item.key, next)
    case Delete(item, prev, next, _, child) =>
      Exact(child) && SuccessorIs(child, item.key, next) && PredecessorIs(child, item.key, prev)
    case Merge(_, _, right, child) => Exact(child) && Exact(right)
    case _ => Exact(c.child)
  }

  /** The node is known to begin at this low key. */
  predicate Names(lows: map<NodeId, Low>, id: NodeId, low: Low)
  {
    id in lows && lows[id] == low
  }

  predicate HighNamed(high: High, lows: map<NodeId, Low>)
  {
    high.HighAt? ==> Names(lows, high.next, LowAt(high.key))
  }

  /** Every NodeID the search can come across is that of a node beginning at the key next to it. */
  ghost predicate Named(c: Inner, lows: map<NodeId, Low>)
  {
    match c
    case Base(low, high, items) =>
      && HighNamed(high, lows) && (items != [] ==> Names(lows, items[0].id, low))
      && (forall i :: 1 <= i < |items| ==> Names(lows, items[i].id, LowAt(items[i].key)))
    case Insert(item, _, _, child) => Named(child, lows) && Names(lows, item.id, LowAt(item.key))
    case Delete(_, prev, _, _, child) =>
      && Named(child, lows)
      && (prev.id == LowIdOf(child) || (Names(lows, prev.id, LowAt(prev.key)) && StrictlyAbove(prev.key, LowOf(child))))
    case Split(k, sibling, _, child) => Named(child, lows) && Names(lows, sibling, LowAt(k))
    case Merge(_, _, right, child) => Named(child, lows) && Named(right, lows)
    case _ => Named(c.child, lows)
  }

  lemma {:induction false} LowIdNamed(c: Inner, lows: map<NodeId, Low>)
    requires Named(c, lows) && WellFormed(c)
    ensures Names(lows, LowIdOf(c), LowOf(c))
  {
    if !c.Base? { LowIdNamed(c.child, lows); }
  }

  lemma {:induction false} HighIsNamed(c: Inner, lows: map<NodeId, Low>)
    requires Named(c, lows)
    ensures HighNamed(HighOf(c), lows)
  {
    match c
    case Base(_, _, _) =>
    case Split(_, _, _, _) =>
    case Merge(_, _, right, _) => HighIsNamed(right, lows);
    case _ => HighIsNamed(c.child, lows);
  }

  // ------------------------------------------------------------------------------------
  // Steps of the walk
  // ------------------------------------------------------------------------------------

  lemma InsertTaken(c: Inner, k: int)
    requires c.Insert? && Exact(c) && c.item.key <= k && BelowHigh(k, c.next)
    ensures Routes(c, k, c.item.id)
  {
    hide Has;
    assert c.item in Seps(c);
  }

  lemma InsertPassed(c: Inner, k: int, id: NodeId)
    requires InPlace(c, k) && c.Insert? && Exact(c) && !(c.item.key <= k && BelowHigh(k, c.next))
    requires Routes(c.child, k, id)
    ensures Routes(c, k, id)
  {
    DataInPlace(c, k);
    hide WellFormed;
    if c.item.key <= k {
      assert Has(c.child, c.next.key);
      var t :| t in Seps(c.child) && t.key == c.next.key;
      var s :| s in Seps(c.child) && s.id == id && s.key <= k && forall t :: t in Seps(c.child) && t.key <= k ==> t.key <= s.key;
      assert s in Seps(c);
    } else if !(id == LowIdOf(c.child) && forall t :: t in Seps(c.child) ==> k < t.key) {
      var s :| s in Seps(c.child) && s.id == id && s.key <= k && forall t :: t in Seps(c.child) && t.key <= k ==> t.key <= s.key;
      assert s in Seps(c);
    }
  }

  lemma DeleteTaken(c: Inner, k: int)
    requires InPlace(c, k) && c.Delete? && Exact(c) && (c.prev.id == LowIdOf(c.child) || c.prev.key <= k) && BelowHigh(k, c.next)
    ensures Routes(c, k, c.prev.id)
  {
    DataInPlace(c, k);
    hide WellFormed, Has;
    if c.prev.id != LowIdOf(c.child) { assert c.prev in Seps(c); }
  }

  lemma DeletePassed(c: Inner, k: int, id: NodeId)
    requires InPlace(c, k) && c.Delete? && Exact(c)
    requires !((c.prev.id == LowIdOf(c.child) || c.prev.key <= k) && BelowHigh(k, c.next))
    requires Routes(c.child, k, id)
    ensures Routes(c, k, id)
  {
    DataInPlace(c, k);
    hide WellFormed;
    if !(id == LowIdOf(c.child) && forall t :: t in Seps(c.child) ==> k < t.key) {
      var s :| s in Seps(c.child) && s.id == id && s.key <= k && forall t :: t in Seps(c.child) && t.key <= k ==> t.key <= s.key;
      if !BelowHigh(k, c.next) {
        SuccessorReached(c.child, c.item.key, c.next, k);
      }
      assert s in Seps(c);
    }
  }

  lemma SuccessorReached(c: Inner, key: int, next: High, k: int)
    requires SuccessorIs(c, key, next) && !BelowHigh(k, next) && BelowHigh(k, HighOf(c))
    ensures exists t :: t in Seps(c) && key < t.key <= k
  {
  }

  lemma SplitPassed(c: Inner, k: int, id: NodeId)
    requires InPlace(c, k) && c.Split? && Routes(c.child, k, id)
    ensures Routes(c, k, id)
  {
    SplitInPlace(c, k);
    hide WellFormed;
    if !(id == LowIdOf(c.child) && forall t :: t in Seps(c.child) ==> k < t.key) {
      var s :| s in Seps(c.child) && s.id == id && s.key <= k && forall t :: t in Seps(c.child) && t.key <= k ==> t.key <= s.key;
      assert s in Seps(c);
    }
  }

  lemma MergePassed(c: Inner, k: int, id: NodeId)
    requires InPlace(c, k) && c.Merge? && Routes(if c.mergeKey <= k then c.right else c.child, k, id)
    ensures Routes(c, k, id)
  {
    MergeInPlace(c, k);
    forall s | s in Seps(c)
      ensures s.key < c.mergeKey <==> s in Seps(c.child)
      ensures c.mergeKey < s.key <==> s in Seps(c.right)
    {
      MergeSides(c, s);
    }
    hide WellFormed;
    var side := if c.mergeKey <= k then c.right else c.child;
    if id == LowIdOf(side) && forall t :: t in Seps(side) ==> k < t.key {
      if c.mergeKey <= k { assert Sep(c.mergeKey, LowIdOf(c.right)) in Seps(c); }
    } else {
      var s :| s in Seps(side) && s.id == id && s.key <= k && forall t :: t in Seps(side) && t.key <= k ==> t.key <= s.key;
      assert s in Seps(c);
    }
  }

  predicate MergeFree(c: Inner)
  {
    c.Base? || (!c.Merge? && MergeFree(c.child))
  }

  lemma {:induction false} MergeFreeBase(c: Inner, k: int)
    requires MergeFree(c)
    ensures BaseFor(c, k) == LowBase(c)
  {
    if !c.Base? { MergeFreeBase(c.child, k); }
  }

  /** The part of the base the search is narrowed to still contains the largest separator not above
      the key, or begins right behind it. */
  ghost predicate Narrowed(items: seq<Sep>, k: int, start: nat, end: nat)
  {
    && 1 <= start <= end <= |items|
    && (forall i :: 1 <= i < start ==> items[i].key <= k)
    && (forall i :: end <= i < |items| ==> k < items[i].key)
  }

  lemma NarrowedByPlace(base: Inner, k: int, start: nat, end: nat, key: int, loc: nat)
    requires base.Base? && Narrowed(base.items, k, start, end) && Located(base, key, loc) && StrictlyAbove(key, base.low)
    ensures key <= k ==> Narrowed(base.items, k, Max(start, loc), end)
    ensures k < key ==> Narrowed(base.items, k, start, Min(end, loc))
  {
    LocatedAt(base, key, loc, end);
    LocatedAt(base, key, loc, loc);
  }

  lemma LocatedAt(base: Inner, key: int, loc: nat, p: nat)
    requires base.Base? && Located(base, key, loc)
    ensures 1 <= p < |base.items| ==> (p < loc <==> base.items[p].key < key)
  {
  }

  function Max(a: nat, b: nat): nat
  {
    if a < b then b else a
  }

  function Min(a: nat, b: nat): nat
  {
    if b < a then b else a
  }

  /** Without a merge below it, the position in a data delta narrows the part of the base searched. */
  lemma NarrowedByDelta(c: Inner, k: int, start: nat, end: nat)
    requires InPlace(c, k) && (c.Insert? || c.Delete?) && MergeFree(c) && Narrowed(LowBase(c).items, k, start, end)
    ensures c.item.key <= k ==> Narrowed(LowBase(c.child).items, k, Max(start, c.loc), end)
    ensures k < c.item.key ==> Narrowed(LowBase(c.child).items, k, start, Min(end, c.loc))
  {
    DataInPlace(c, k);
    MergeFreeBase(c.child, c.item.key);
    DataStrict(c);
    hide WellFormed, Narrowed, Located;
    NarrowedByPlace(LowBase(c), k, start, end, c.item.key, c.loc);
  }

  lemma DataStrict(c: Inner)
    requires WellFormed(c) && (c.Insert? || c.Delete?)
    ensures StrictlyAbove(c.item.key, LowOf(c))
  {
    hide Located;
    if c.Delete? {
      var s :| s in Seps(c.child) && s.key == c.item.key;
      SepsInRange(c.child, s);
    }
  }

  /** The node is the leftmost child of the chain, or begins strictly inside its range. */
  predicate ChildNamed(c: Inner, id: NodeId, lows: map<NodeId, Low>)
  {
    id in lows && if lows[id] == LowOf(c) then id == LowIdOf(c) else lows[id].LowAt? && StrictlyAbove(lows[id].key, LowOf(c))
  }

  /** The child a search may go on to: the exact one, and in any case one that begins at or below
      the key. */
  ghost predicate Leads(top: Inner, k: int, id: NodeId)
  {
    && (Exact(top) ==> Routes(top, k, id))
    && (forall lows :: Named(top, lows) ==> ChildNamed(top, id, lows) && AboveLow(k, lows[id]))
  }

  /** From the node the walk has come to, the key still leads where it leads from the top, and what is
      named there is named at the top. */
  ghost predicate Walked(top: Inner, node: Inner, k: int)
  {
    && InPlace(node, k) && BaseFor(node, k) == BaseFor(top, k)
    && (Exact(top) ==> Exact(node))
    && forall id :: Leads(node, k, id) ==> Leads(top, k, id)
  }

  lemma InsertLeads(c: Inner, k: int)
    requires InPlace(c, k) && c.Insert? && c.item.key <= k && BelowHigh(k, c.next)
    ensures Leads(c, k, c.item.id)
  {
    if Exact(c) { InsertTaken(c, k); }
    DataStrict(c);
    hide WellFormed, Routes, Exact;
  }

  lemma DeleteLeads(c: Inner, k: int)
    requires InPlace(c, k) && c.Delete? && (c.prev.id == LowIdOf(c) || c.prev.key <= k) && BelowHigh(k, c.next)
    ensures Leads(c, k, c.prev.id)
  {
    if Exact(c) { DeleteTaken(c, k); }
    forall lows | Named(c, lows)
      ensures ChildNamed(c, c.prev.id, lows) && AboveLow(k, lows[c.prev.id])
    {
      LowIdNamed(c, lows);
    }
    hide WellFormed, Routes, Exact;
  }

  lemma ChildLeads(c: Inner, k: int, id: NodeId)
    requires InPlace(c, k) && (c.Insert? || c.Delete? || c.Split?) && Leads(c.child, k, id)
    requires c.Insert? ==> !(c.item.key <= k && BelowHigh(k, c.next))
    requires c.Delete? ==> !((c.prev.id == LowIdOf(c) || c.prev.key <= k) && BelowHigh(k, c.next))
    ensures Leads(c, k, id)
  {
    if Exact(c) {
      if c.Insert? {
        InsertPassed(c, k, id);
      } else if c.Delete? {
        DeletePassed(c, k, id);
      } else {
        SplitPassed(c, k, id);
      }
    }
    hide InPlace, Routes, Exact;
    forall lows | Named(c, lows)
      ensures ChildNamed(c, id, lows) && AboveLow(k, lows[id])
    {
      assert Named(c.child, lows);
    }
  }

  lemma SideLeads(c: Inner, k: int, id: NodeId)
    requires InPlace(c, k) && c.Merge? && Leads(if c.mergeKey <= k then c.right else c.child, k, id)
    ensures Leads(c, k, id)
  {
    var side := if c.mergeKey <= k then c.right else c.child;
    if Exact(c) {
      assert Exact(side);
      MergePassed(c, k, id);
    }
    MergeLow(c, k);
    hide InPlace, Routes, Exact;
    forall lows | Named(c, lows)
      ensures ChildNamed(c, id, lows) && AboveLow(k, lows[id])
    {
      assert Named(side, lows);
    }
  }

  lemma WalkedData(top: Inner, node: Inner, k: int)
    requires Walked(top, node, k) && (node.Insert? || node.Delete?)
    ensures node.Insert? && node.item.key <= k && BelowHigh(k, node.next) ==> Leads(top, k, node.item.id)
    ensures node.Delete? && (node.prev.id == LowIdOf(node) || node.prev.key <= k) && BelowHigh(k, node.next)
            ==> Leads(top, k, node.prev.id)
    ensures (node.Insert? && !(node.item.key <= k && BelowHigh(k, node.next)))
            || (node.Delete? && !((node.prev.id == LowIdOf(node) || node.prev.key <= k) && BelowHigh(k, node.next)))
            ==> Walked(top, node.child, k)
  {
    DataInPlace(node, k);
    hide InPlace, Leads;
    if node.Insert? && node.item.key <= k && BelowHigh(k, node.next) {
      InsertLeads(node, k);
    } else if node.Delete? && (node.prev.id == LowIdOf(node) || node.prev.key <= k) && BelowHigh(k, node.next) {
      DeleteLeads(node, k);
    } else {
      forall id | Leads(node.child, k, id)
        ensures Leads(top, k, id)
      {
        ChildLeads(node, k, id);
      }
    }
  }

  lemma WalkedSplit(top: Inner, node: Inner, k: int)
    requires Walked(top, node, k) && node.Split?
    ensures Walked(top, node.child, k)
  {
    SplitInPlace(node, k);
    hide InPlace, Leads;
    forall id | Leads(node.child, k, id)
      ensures Leads(top, k, id)
    {
      ChildLeads(node, k, id);
    }
  }

  lemma WalkedMerge(top: Inner, node: Inner, k: int)
    requires Walked(top, node, k) && node.Merge?
    ensures Walked(top, if node.mergeKey <= k then node.right else node.child, k)
  {
    MergeInPlace(node, k);
    hide InPlace, Leads;
    forall id | Leads(if node.mergeKey <= k then node.right else node.child, k, id)
      ensures Leads(top, k, id)
    {
      SideLeads(node, k, id);
    }
  }

  lemma MergeLow(c: Inner, k: int)
    requires InPlace(c, k) && c.Merge?
    ensures LowOf(c) == LowOf(c.child) && LowIdOf(c) == LowIdOf(c.child) && LowOf(c.right) == LowAt(c.mergeKey)
    ensures StrictlyAbove(c.mergeKey, LowOf(c))
  {
    hide Located, Has;
  }

  /** `std::upper_bound` between two positions. */
  function UpperBoundIn(items: seq<Sep>, k: int, start: nat, end: nat): (i: nat)
    requires start <= end <= |items|
    ensures start <= i <= end
    ensures forall j :: start <= j < i ==> items[j].key <= k
    ensures i < end ==> k < items[i].key
    decreases end - start
  {
    if start == end || k < items[start].key then start else UpperBoundIn(items, k, start + 1, end)
  }

  /** What the walk from the newest delta to the base comes out at: the answer of the first delta whose
      interval contains the key, or else that of the base. */
  function Choice(c: Inner, k: int): (id: NodeId)
  {
    match c
    case Base(_, _, items) => if items == [] then 0 else items[UpperBoundIn(items, k, 1, |items|) - 1].id
    case Insert(item, next, _, child) => if item.key <= k && BelowHigh(k, next) then item.id else Choice(child, k)
    case Delete(_, prev, next, _, child) =>
      if (prev.id == LowIdOf(child) || prev.key <= k) && BelowHigh(k, next) then prev.id else Choice(child, k)
    case Split(_, _, _, child) => Choice(child, k)
    case Merge(mergeKey, _, right, child) => Choice(if mergeKey <= k then right else child, k)
    case Remove(_, child) => Choice(child, k)
    case Abort(child) => Choice(child, k)
  }

  /** `LocateSeparatorByKey`: the last separator not above the key, within the given part. */
  method LocateSeparatorByKey(top: Inner, base: Inner, k: int, start: nat, end: nat) returns (id: NodeId)
    requires base.Base? && Walked(top, base, k) && Narrowed(base.items, k, start, end)
    ensures Leads(top, k, id) && id == Choice(base, k)
  {
    var i := UpperBoundIn(base.items, k, start, end);
    id := base.items[i - 1].id;
    UpperBoundWhole(base.items, k, start, end);
    AtBase(top, base, k, i);
    ChoiceAtBase(base, k, i);
  }

  lemma ChoiceAtBase(base: Inner, k: int, i: nat)
    requires base.Base? && InPlace(base, k) && 1 <= i <= |base.items|
    requires forall j :: 1 <= j < i ==> base.items[j].key <= k
    requires i < |base.items| ==> k < base.items[i].key
    ensures Choice(base, k) == base.items[i - 1].id
  {
    BaseOrdered(base);
    hide WellFormed;
    var j := UpperBoundIn(base.items, k, 1, |base.items|);
    assert !(i < j) && !(j < i);
  }

  lemma UpperBoundWhole(items: seq<Sep>, k: int, start: nat, end: nat)
    requires Narrowed(items, k, start, end)
    ensures var i := UpperBoundIn(items, k, start, end);
            && 1 <= i && (forall j :: 1 <= j < i ==> items[j].key <= k)
            && ((i == end == |items|) || (i < |items| && k < items[i].key))
  {
  }

  lemma AtBase(top: Inner, base: Inner, k: int, i: nat)
    requires base.Base? && Walked(top, base, k) && 1 <= i <= |base.items|
    requires forall j :: 1 <= j < i ==> base.items[j].key <= k
    requires i < |base.items| ==> k < base.items[i].key
    ensures Leads(top, k, base.items[i - 1].id)
  {
    BaseRoutes(base, k, i);
    BaseLeads(base, k, i);
    hide Leads;
  }

  lemma BaseLeads(base: Inner, k: int, i: nat)
    requires base.Base? && InPlace(base, k) && 1 <= i <= |base.items| && Routes(base, k, base.items[i - 1].id)
    requires forall j :: 1 <= j < i ==> base.items[j].key <= k
    ensures Leads(base, k, base.items[i - 1].id)
  {
    hide Routes, Exact;
    BaseOrdered(base);
    hide WellFormed;
    forall lows | Named(base, lows)
      ensures ChildNamed(base, base.items[i - 1].id, lows) && AboveLow(k, lows[base.items[i - 1].id])
    {
      assert i > 1 ==> Names(lows, base.items[i - 1].id, LowAt(base.items[i - 1].key));
    }
  }

  lemma BaseRoutes(base: Inner, k: int, i: nat)
    requires base.Base? && WellFormed(base) && 1 <= i <= |base.items|
    requires forall j :: 1 <= j < i ==> base.items[j].key <= k
    requires i < |base.items| ==> k < base.items[i].key
    ensures Routes(base, k, base.items[i - 1].id)
  {
    BaseOrdered(base);
    BaseSeps(base);
    hide WellFormed, Seps, Behind;
    var s := base.items[i - 1];
    forall t | t in Seps(base)
      ensures t.key <= k ==> i > 1 && t.key <= s.key
    {
      var j :| 1 <= j < |base.items| && base.items[j] == t;
    }
    if i > 1 { assert s in Seps(base); }
  }

  lemma BaseSeps(base: Inner)
    requires base.Base?
    ensures forall i :: 1 <= i < |base.items| ==> base.items[i] in Seps(base)
    ensures forall s :: s in Seps(base) ==> exists i :: 1 <= i < |base.items| && base.items[i] == s
  {
  }

  lemma BaseOrdered(base: Inner)
    requires base.Base? && WellFormed(base)
    ensures |base.items| > 0 && (base.low.LowAt? ==> base.items[0].key == base.low.key)
    ensures forall i, j :: 1 <= i <= j < |base.items| ==> base.items[i].key <= base.items[j].key
    ensures forall i :: 1 <= i < |base.items| ==> StrictlyAbove(base.items[i].key, base.low)
  {
  }

  lemma WalkedStart(top: Inner, k: int)
    requires InPlace(top, k)
    ensures Walked(top, top, k) && Narrowed(LowBase(top).items, k, 1, |LowBase(top).items|)
  {
    hide Leads, Exact;
    LowBaseFormed(top);
  }

  lemma {:induction false} LowBaseFormed(c: Inner)
    requires WellFormed(c)
    ensures |LowBase(c).items| > 0 && WellFormed(LowBase(c))
  {
    if !c.Base? { LowBaseFormed(c.child); }
  }

  lemma SameLowId(top: Inner, node: Inner, k: int)
    requires Walked(top, node, k) && (node.Insert? || node.Delete?)
    ensures LowIdOf(node) == LowIdOf(node.child)
  {
    DataInPlace(node, k);
  }

  lemma WalkedFacts(top: Inner, node: Inner, k: int)
    requires Walked(top, node, k)
    ensures InPlace(node, k) && !node.Remove? && !node.Abort?
  {
    hide Leads, Exact, WellFormed;
  }

  /** `NavigateInnerNode`: stops at the first delta whose interval contains the key; the other deltas
      narrow the part of the base that is searched, and a merge resets it for the side taken. */
  method NavigateInnerNode(top: Inner, k: int) returns (id: NodeId)
    requires InPlace(top, k)
    ensures Leads(top, k, id) && id == Choice(top, k)
  {
    hide Leads, Exact, InPlace, Narrowed;
    var node := top;
    var start: nat, end: nat := 1, |LowBase(top).items|;
    WalkedStart(top, k);
    while !node.Base?
      invariant Walked(top, node, k) && Choice(node, k) == Choice(top, k)
      invariant MergeFree(node) ==> Narrowed(LowBase(node).items, k, start, end)
      decreases node
    {
      WalkedFacts(top, node, k);
      if node.Merge? {
        WalkedMerge(top, node, k);
        node := if k >= node.mergeKey then node.right else node.child;
        start, end := 1, |LowBase(node).items|;
        WalkedFacts(top, node, k);
        WalkedStart(node, k);
      } else if node.Split? {
        WalkedSplit(top, node, k);
        node := node.child;
      } else {
        WalkedData(top, node, k);
        SameLowId(top, node, k);
        if MergeFree(node) { NarrowedByDelta(node, k, start, end); }
        if node.Insert? {
          if k >= node.item.key {
            if node.next.PosInf? || k < node.next.key {
              return node.item.id;
            }
            start := Max(start, node.loc);
          } else {
            end := Min(end, node.loc);
          }
        } else {
          if LowIdOf(node) == node.prev.id || k >= node.prev.key {
            if node.next.PosInf? || k < node.next.key {
              return node.prev.id;
            }
          }
          if k >= node.item.key {
            start := Max(start, node.loc);
          } else {
            end := Min(end, node.loc);
          }
        }
        node := node.child;
      }
    }
    id := LocateSeparatorByKey(top, node, k, start, end);
  }

  /** Where the walk ends is a child the search may go on to. */
  lemma {:induction false} ChoiceLeads(c: Inner, k: int)
    requires InPlace(c, k)
    ensures Leads(c, k, Choice(c, k))
  {
    hide Leads, Exact, WellFormed;
    InPlaceKind(c, k);
    if c.Base? {
      var i := UpperBoundIn(c.items, k, 1, |c.items|);
      InPlaceFormed(c, k);
      BaseRoutes(c, k, i);
      BaseLeads(c, k, i);
    } else if c.Merge? {
      MergeInPlace(c, k);
      ChoiceLeads(if c.mergeKey <= k then c.right else c.child, k);
      SideLeads(c, k, Choice(c, k));
    } else if c.Insert? && c.item.key <= k && BelowHigh(k, c.next) {
      InsertLeads(c, k);
    } else if c.Delete? && (c.prev.id == LowIdOf(c.child) || c.prev.key <= k) && BelowHigh(k, c.next) {
      DataInPlace(c, k);
      DeleteLeads(c, k);
    } else {
      ChildInPlace(c, k);
      ChoiceLeads(c.child, k);
      ChildLeads(c, k, Choice(c, k));
    }
  }

  lemma InPlaceKind(c: Inner, k: int)
    requires InPlace(c, k)
    ensures !c.Remove? && !c.Abort? && (c.Base? ==> |c.items| > 0)
  {
  }

  lemma InPlaceFormed(c: Inner, k: int)
    requires InPlace(c, k)
    ensures WellFormed(c)
  {
    hide WellFormed;
  }

  lemma ChildInPlace(c: Inner, k: int)
    requires InPlace(c, k) && (c.Insert? || c.Delete? || c.Split?)
    ensures InPlace(c.child, k) && (c.Delete? ==> LowIdOf(c) == LowIdOf(c.child))
  {
    if c.Split? { SplitInPlace(c, k); } else { DataInPlace(c, k); }
  }

  // ------------------------------------------------------------------------------------
  // Looking for one separator
  // ------------------------------------------------------------------------------------

  datatype Found = Nothing | Found(sep: Sep)

  /** The separators of a chain on the right side of a merge include its low key. */
  ghost function SepsFrom(c: Inner, onRight: bool): set<Sep>
  {
    if onRight && LowOf(c).LowAt? then Seps(c) + {Sep(LowOf(c).key, LowIdOf(c))} else Seps(c)
  }

  /** From the node the walk has come to, the separators with the key are still those of the top. */
  ghost predicate Sought(top: Inner, node: Inner, k: int, onRight: bool)
  {
    && InPlace(node, k) && BaseFor(node, k) == BaseFor(top, k)
    && (forall id :: Sep(k, id) in Seps(top) <==> Sep(k, id) in SepsFrom(node, onRight))
    && (if onRight then LowIdOf(top) !in LowIds(node) && LowOf(node).LowAt? else LowIdOf(top) == LowIdOf(node))
  }

  lemma SoughtData(top: Inner, node: Inner, k: int, onRight: bool)
    requires Sought(top, node, k, onRight) && (node.Insert? || node.Delete?)
    ensures node.item.key == k ==> Located(BaseFor(top, k), k, node.loc)
    ensures node.item.key == k ==> if node.Insert? then node.item in Seps(top) else !Has(top, k)
    ensures node.item.key != k ==> Sought(top, node.child, k, onRight)
  {
    DataInPlace(node, k);
    DataSeps(node, k, onRight);
    hide InPlace, Seps, SepsFrom, Located, BaseFor, WellFormed, LowIdOf;
    DataAtKey(top, node, k, onRight);
  }

  lemma DataSeps(c: Inner, k: int, onRight: bool)
    requires InPlace(c, k) && (c.Insert? || c.Delete?)
    ensures c.item.key != k ==> forall id :: Sep(k, id) in SepsFrom(c, onRight) <==> Sep(k, id) in SepsFrom(c.child, onRight)
    ensures c.item.key == k && c.Insert? ==> c.item in SepsFrom(c, onRight)
    ensures c.item.key == k && c.Delete? ==> forall id :: Sep(k, id) !in SepsFrom(c, onRight)
    ensures LowIds(c) == LowIds(c.child) && LowOf(c) == LowOf(c.child)
  {
    DataStrict(c);
    hide WellFormed, Located;
  }

  lemma DataAtKey(top: Inner, node: Inner, k: int, onRight: bool)
    requires forall id :: Sep(k, id) in Seps(top) <==> Sep(k, id) in SepsFrom(node, onRight)
    requires node.Insert? || node.Delete?
    requires node.item.key == k && node.Insert? ==> node.item in SepsFrom(node, onRight)
    requires node.item.key == k && node.Delete? ==> forall id :: Sep(k, id) !in SepsFrom(node, onRight)
    ensures node.item.key == k ==> if node.Insert? then node.item in Seps(top) else !Has(top, k)
  {
    hide Seps, SepsFrom;
    assert node.item == Sep(node.item.key, node.item.id);
    forall s | s in Seps(top) && node.item.key == k && node.Delete?
      ensures s.key != k
    {
      assert s == Sep(s.key, s.id);
    }
  }

  lemma SoughtSplit(top: Inner, node: Inner, k: int, onRight: bool)
    requires Sought(top, node, k, onRight) && node.Split?
    ensures Sought(top, node.child, k, onRight)
  {
    SplitInPlace(node, k);
    hide WellFormed, Located;
  }

  lemma SoughtMerge(top: Inner, node: Inner, k: int, onRight: bool)
    requires Sought(top, node, k, onRight) && node.Merge?
    ensures if node.mergeKey <= k then Sought(top, node.right, k, true) else Sought(top, node.child, k, onRight)
  {
    MergeInPlace(node, k);
    MergeSeps(node, k, onRight);
    hide WellFormed, Located, InPlace, Seps, LowOf, LowIdOf, SepsFrom;
  }

  lemma MergeSeps(c: Inner, k: int, onRight: bool)
    requires InPlace(c, k) && c.Merge?
    ensures c.mergeKey <= k ==> forall id :: Sep(k, id) in SepsFrom(c, onRight) <==> Sep(k, id) in SepsFrom(c.right, true)
    ensures k < c.mergeKey ==> forall id :: Sep(k, id) in SepsFrom(c, onRight) <==> Sep(k, id) in SepsFrom(c.child, onRight)
    ensures LowIds(c.child) <= LowIds(c)
  {
    forall id | Sep(k, id) in Seps(c)
      ensures k < c.mergeKey ==> Sep(k, id) in Seps(c.child)
      ensures c.mergeKey <= k ==> Sep(k, id) in SepsFrom(c.right, true)
    {
      MergeSides(c, Sep(k, id));
    }
    MergeLow(c, k);
    hide WellFormed;
  }

  /** `std::lower_bound` from a position on. */
  function LowerBoundFrom(items: seq<Sep>, k: int, start: nat): (i: nat)
    requires start <= |items|
    ensures start <= i <= |items|
    ensures forall j :: start <= j < i ==> items[j].key < k
    ensures i < |items| ==> k <= items[i].key
    decreases |items| - start
  {
    if start == |items| || k <= items[start].key then start else LowerBoundFrom(items, k, start + 1)
  }

  /** `NavigateInnerNode` for one separator: the separator with the key, if there is one, and the
      position of the key in the base, which the next delta for it will carry. */
  method FindSeparator(top: Inner, k: int) returns (found: Found, location: nat)
    requires InPlace(top, k)
    ensures found.Nothing? <==> !Has(top, k)
    ensures found.Found? ==> found.sep in Seps(top) && found.sep.key == k
    ensures Located(BaseFor(top, k), k, location)
  {
    hide Located, InPlace, Seps, Sought, LowIdOf, Has;
    var lowId := LowIdOf(top);
    var node := top;
    ghost var onRight := false;
    SoughtStart(top, k);
    while !node.Base?
      invariant Sought(top, node, k, onRight)
      decreases node
    {
      SoughtFacts(top, node, k, onRight);
      if node.Merge? {
        SoughtMerge(top, node, k, onRight);
        onRight := onRight || node.mergeKey <= k;
        node := if k >= node.mergeKey then node.right else node.child;
      } else if node.Split? {
        SoughtSplit(top, node, k, onRight);
        node := node.child;
      } else {
        SoughtData(top, node, k, onRight);
        if node.item.key == k {
          location := node.loc;
          if node.Insert? {
            HasSep(top, node.item);
            return Found(node.item), location;
          }
          return Nothing, location;
        }
        node := node.child;
      }
    }
    SoughtBase(top, node, k, onRight);
    var start: nat := if lowId == node.items[0].id then 1 else 0;
    location := LowerBoundFrom(node.items, k, start);
    if location == |node.items| || node.items[location].key != k {
      found := Nothing;
    } else {
      HasSep(top, node.items[location]);
      found := Found(node.items[location]);
    }
  }

  lemma HasSep(c: Inner, s: Sep)
    requires s in Seps(c)
    ensures Has(c, s.key)
  {
  }

  lemma SoughtStart(top: Inner, k: int)
    requires InPlace(top, k)
    ensures Sought(top, top, k, false)
  {
  }

  lemma SoughtFacts(top: Inner, node: Inner, k: int, onRight: bool)
    requires Sought(top, node, k, onRight)
    ensures !node.Remove? && !node.Abort?
  {
  }

  lemma SoughtBase(top: Inner, base: Inner, k: int, onRight: bool)
    requires Sought(top, base, k, onRight) && base.Base?
    ensures |base.items| > 0 && BaseFor(top, k) == base
    ensures var start := if LowIdOf(top) == base.items[0].id then 1 else 0;
            var i := LowerBoundFrom(base.items, k, start);
            && Located(base, k, i)
            && (if i == |base.items| || base.items[i].key != k then !Has(top, k) else base.items[i] in Seps(top))
  {
    SoughtIds(top, base, k, onRight);
    BaseOrdered(base);
    BaseSeps(base);
    hide Sought, InPlace, WellFormed, Seps, BaseFor, Located;
    var start: nat := if onRight then 0 else 1;
    var i := LowerBoundFrom(base.items, k, start);
    LowerBoundLocated(base, k, start);
    if i < |base.items| && base.items[i].key == k {
      assert base.items[i] == Sep(k, base.items[i].id);
    } else {
      forall id
        ensures Sep(k, id) !in SepsFrom(base, onRight)
      {
        NotInBase(base, k, i, start, onRight, Sep(k, id));
      }
      forall s | s in Seps(top)
        ensures s.key != k
      {
        assert s == Sep(s.key, s.id);
      }
    }
  }

  lemma SoughtIds(top: Inner, base: Inner, k: int, onRight: bool)
    requires Sought(top, base, k, onRight) && base.Base?
    ensures WellFormed(base) && BaseFor(top, k) == base && InRange(k, base.low, base.high)
    ensures |base.items| > 0 && LowIdOf(base) == base.items[0].id
    ensures onRight <==> LowIdOf(top) != base.items[0].id
    ensures forall id :: Sep(k, id) in Seps(top) <==> Sep(k, id) in SepsFrom(base, onRight)
    ensures onRight ==> base.low.LowAt?
  {
    hide Seps, SepsFrom, Has;
  }

  lemma LowerBoundLocated(base: Inner, k: int, start: nat)
    requires base.Base? && |base.items| > 0 && start <= 1 && (start == 0 ==> base.low.LowAt? && base.items[0].key == base.low.key)
    requires forall i, j :: 1 <= i <= j < |base.items| ==> base.items[i].key <= base.items[j].key
    requires forall i :: 1 <= i < |base.items| ==> StrictlyAbove(base.items[i].key, base.low)
    ensures Located(base, k, LowerBoundFrom(base.items, k, start))
  {
  }

  lemma NotInBase(base: Inner, k: int, i: nat, start: nat, onRight: bool, s: Sep)
    requires base.Base? && |base.items| > 0 && s.key == k && start == (if onRight then 0 else 1) && start <= i <= |base.items|
    requires onRight ==> base.low.LowAt? && base.items[0].key == base.low.key
    requires forall j :: start <= j < i ==> base.items[j].key < k
    requires i < |base.items| ==> k < base.items[i].key
    requires forall i, j :: 1 <= i <= j < |base.items| ==> base.items[i].key <= base.items[j].key
    requires forall i :: 1 <= i < |base.items| ==> StrictlyAbove(base.items[i].key, base.low)
    ensures s !in SepsFrom(base, onRight)
  {
    BaseSeps(base);
    hide Seps;
  }
}
