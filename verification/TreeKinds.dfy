/** Leaves and inner nodes do not mix: a NodeID that was ever that of an inner node, or of its right
sibling, is never that of a leaf. */
module TreeKinds {
  import opened BwTypes
  import opened InnerChain
  import opened InnerSearch
  import opened TreeRouting
  import L = LeafChain
  import LeafLevel

  /** The snapshot and what lies to its right are not among the leaves; and what an abort node stands on
      was installed under the same NodeID. */
  ghost predicate Upper(leafIds: set<NodeId>, seen: set<InnerSnapshot>, x: InnerSnapshot)
  {
    && x.id !in leafIds
    && (HighOf(x.chain).HighAt? ==> HighOf(x.chain).next !in leafIds)
    && (x.chain.Abort? ==> InnerSnapshot(x.id, x.chain.child) in seen)
  }

  ghost predicate KindsApart(t: State)
  {
    forall x :: x in t.innerSeen ==> Upper(t.leaves.table.Keys, t.innerSeen, x)
  }

  lemma InitApart(t: State)
    requires Init(t)
    ensures KindsApart(t)
  {
    hide WellFormed, LeafLevel.Inv;
  }

  lemma CurrentUpper(t: State, id: NodeId)
    requires Inv(t) && KindsApart(t) && id in t.inners
    ensures InnerSnapshot(id, t.inners[id]) in t.innerSeen && Upper(t.leaves.table.Keys, t.innerSeen, InnerSnapshot(id, t.inners[id]))
  {
    hide LeafLevel.Inv, LeavesNamed, InnersNamed, Published, SplitsPending, Upper;
  }

  /** The next NodeID is neither that of an inner node nor that of a right sibling. */
  lemma NextUnused(t: State)
    requires Inv(t)
    ensures t.nextId !in t.leaves.table
    ensures forall x :: x in t.innerSeen ==> x.id != t.nextId && (HighOf(x.chain).HighAt? ==> HighOf(x.chain).next != t.nextId)
  {
    AllBelow(t);
    forall x | x in t.innerSeen
      ensures HighOf(x.chain).HighAt? ==> HighOf(x.chain).next != t.nextId
    {
      HighBelow(t, x);
    }
    hide Inv;
  }

  lemma HighBelow(t: State, x: InnerSnapshot)
    requires Inv(t) && x in t.innerSeen
    ensures HighOf(x.chain).HighAt? ==> HighOf(x.chain).next < t.nextId
  {
    assert WellFormed(x.chain) && Named(x.chain, t.lows);
    HighIsNamed(x.chain, t.lows);
    hide WellFormed, Named, HighOf, LowOf, LeafLevel.Inv, LeavesNamed, InnersNamed, Current, SplitsPending;
  }

  lemma LeafIdsStep(t: State, step: Step)
    requires Inv(t) && Enabled(t, step)
    ensures After(t, step).leaves.table.Keys <= t.leaves.table.Keys + {t.nextId}
    ensures step.OnLeaves? ==> After(t, step).innerSeen == t.innerSeen
    ensures !step.OnLeaves? ==> After(t, step).leaves == t.leaves
  {
    hide Inv, WellFormed, Seps, Has, Located, SplitSeen, MergeSeen, Sibling;
    if step.OnLeaves? {
      EnabledOnLeaves(t, step);
      LeafTableStep(t.leaves, step.step);
      hide After, Enabled;
    }
  }

  lemma LeafTableStep(l: LeafLevel.State, s: LeafLevel.Step)
    requires LeafLevel.Enabled(l, s)
    ensures LeafLevel.After(l, s).table.Keys <= l.table.Keys + (if s.PrepareSplit? then {s.newId} else {})
  {
    hide L.WellFormed, L.Replay, L.Placed, LeafLevel.InsertedAfter, LeafLevel.Without, LeafLevel.Sibling;
  }


  lemma UpperStays(t: State, t': State)
    requires Inv(t) && KindsApart(t) && t'.leaves.table.Keys <= t.leaves.table.Keys + {t.nextId}
    ensures forall x :: x in t.innerSeen ==> Upper(t'.leaves.table.Keys, t.innerSeen, x)
  {
    NextUnused(t);
    hide Inv, HighOf;
  }

  /** The one snapshot that a step on an inner node adds. */
  lemma AddedUpper(t: State, t': State, y: InnerSnapshot)
    requires KindsApart(t) && Upper(t.leaves.table.Keys, t.innerSeen, y) && t'.leaves == t.leaves && t'.innerSeen == t.innerSeen + {y}
    ensures KindsApart(t')
  {
    hide HighOf;
  }

  lemma SameHigh(t: State, id: NodeId, c: Inner)
    requires Inv(t) && KindsApart(t) && id in t.inners && HighOf(c) == HighOf(t.inners[id]) && (c.Abort? ==> c.child == t.inners[id])
    ensures Upper(t.leaves.table.Keys, t.innerSeen, InnerSnapshot(id, c))
  {
    CurrentUpper(t, id);
    hide Inv, HighOf, KindsApart;
  }

  lemma StepApart(t: State, step: Step)
    requires Inv(t) && KindsApart(t) && Enabled(t, step)
    ensures KindsApart(After(t, step))
  {
    hide *;
    LeafIdsStep(t, step);
    if step.OnLeaves? {
      UpperStays(t, After(t, step));
      ApartIs(After(t, step));
    } else {
      var y := InnerStep(t, step);
      ApartIs(t);
      if y.None? {
        SameApart(t, After(t, step));
      } else {
        AddedUpper(t, After(t, step), y.value);
      }
    }
  }

  lemma ApartIs(t: State)
    ensures KindsApart(t) <==> forall x :: x in t.innerSeen ==> Upper(t.leaves.table.Keys, t.innerSeen, x)
  {
    hide Upper;
  }

  lemma SameApart(t: State, t': State)
    requires KindsApart(t) && t'.leaves == t.leaves && t'.innerSeen == t.innerSeen
    ensures KindsApart(t')
  {
    hide Upper;
  }

  datatype Option<T> = None | Some(value: T)

  /** What a step on an inner node adds. */
  lemma InnerStep(t: State, step: Step) returns (y: Option<InnerSnapshot>)
    requires Inv(t) && KindsApart(t) && Enabled(t, step) && !step.OnLeaves?
    ensures After(t, step).innerSeen == t.innerSeen + if y.None? then {} else {y.value}
    ensures y.Some? ==> Upper(t.leaves.table.Keys, t.innerSeen, y.value)
  {
    hide *;
    match step
    case PostInsert(id, _, _, _, _, _) => y := DataUpper(t, step);
    case PostDelete(id, _, _, _, _, _, _) => y := DataUpper(t, step);
    case ConsolidateInner(id, base) =>
      EnabledConsolidate(t, step);
      InstallIs(t, id, base);
      HighOfBase(base);
      SameHigh(t, id, base);
      y := Some(InnerSnapshot(id, base));
    case PrepareInnerSplit(_, _) => y := PrepareUpper(t, step);
    case InstallInnerSplit(_) => y := SplitUpper(t, step);
    case DropInnerSplit(_) =>
      EnabledDrop(t, step);
      y := None;
    case RemoveInner(_) => y := PlainUpper(t, step);
    case InstallAbort(_) => y := PlainUpper(t, step);
    case MergeInner(_, _, _) => y := MergeUpper(t, step);
    case RemoveAbort(id) =>
      EnabledRemoveAbort(t, step);
      CurrentUpper(t, id);
      UnderAbort(t, id);
      InstallIs(t, id, t.inners[id].child);
      y := Some(InnerSnapshot(id, t.inners[id].child));
    case SplitRoot(_, _) => y := RootUpper(t, step);
  }

  lemma HighOfBase(base: Inner)
    requires base.Base?
    ensures HighOf(base) == base.high
  {
  }

  lemma UnderAbort(t: State, id: NodeId)
    requires id in t.inners && t.inners[id].Abort? && KindsApart(t) && Upper(t.leaves.table.Keys, t.innerSeen, InnerSnapshot(id, t.inners[id]))
    ensures Upper(t.leaves.table.Keys, t.innerSeen, InnerSnapshot(id, t.inners[id].child))
  {
    hide HighOf;
  }

  lemma DataUpper(t: State, step: Step) returns (y: Option<InnerSnapshot>)
    requires Inv(t) && KindsApart(t) && Enabled(t, step) && (step.PostInsert? || step.PostDelete?)
    ensures y.Some? && After(t, step).innerSeen == t.innerSeen + {y.value} && Upper(t.leaves.table.Keys, t.innerSeen, y.value)
  {
    hide *;
    EnabledPost(t, step);
    var c := t.inners[step.id];
    var c' := if step.PostInsert? then Insert(Sep(step.key, step.newId), step.next, step.loc, c)
              else Delete(Sep(step.key, step.removed), Sep(step.prevKey, step.child), step.next, step.loc, c);
    InstallIs(t, step.id, c');
    DataHigh(c');
    SameHigh(t, step.id, c');
    y := Some(InnerSnapshot(step.id, c'));
  }

  lemma DataHigh(c: Inner)
    ensures c.Insert? || c.Delete? || c.Remove? || c.Abort? ==> HighOf(c) == HighOf(c.child)
  {
  }

  lemma PlainUpper(t: State, step: Step) returns (y: Option<InnerSnapshot>)
    requires Inv(t) && KindsApart(t) && Enabled(t, step) && (step.RemoveInner? || step.InstallAbort?)
    ensures y.Some? && After(t, step).innerSeen == t.innerSeen + {y.value} && Upper(t.leaves.table.Keys, t.innerSeen, y.value)
  {
    hide *;
    EnabledPlain(t, step);
    var c := t.inners[step.id];
    var c' := if step.RemoveInner? then Remove(step.id, c) else Abort(c);
    InstallIs(t, step.id, c');
    DataHigh(c');
    SameHigh(t, step.id, c');
    y := Some(InnerSnapshot(step.id, c'));
  }

  lemma PrepareUpper(t: State, step: Step) returns (y: Option<InnerSnapshot>)
    requires Inv(t) && KindsApart(t) && Enabled(t, step) && step.PrepareInnerSplit?
    ensures y.Some? && After(t, step).innerSeen == t.innerSeen + {y.value} && Upper(t.leaves.table.Keys, t.innerSeen, y.value)
  {
    EnabledPrepare(t, step);
    NextUnused(t);
    var p := InnerPending(step.id, step.base, |step.base.items| / 2);
    y := Some(InnerSnapshot(t.nextId, Sibling(p)));
    hide Inv, After, Enabled;
    assert Upper(t.leaves.table.Keys, t.innerSeen, InnerSnapshot(step.id, step.base));
  }

  lemma SplitUpper(t: State, step: Step) returns (y: Option<InnerSnapshot>)
    requires Inv(t) && KindsApart(t) && Enabled(t, step) && step.InstallInnerSplit?
    ensures y.Some? && After(t, step).innerSeen == t.innerSeen + {y.value} && Upper(t.leaves.table.Keys, t.innerSeen, y.value)
  {
    hide *;
    EnabledSplit(t, step);
    var n, p := step.newId, t.innerPending[step.newId];
    InvParts(t);
    PendingFacts(t, n);
    CurrentUpper(t, n);
    CurrentUpper(t, p.left);
    SeenUpper(t, InnerSnapshot(p.left, t.inners[p.left]));
    var c := Split(PendingKey(p), n, PendingCount(p), p.base);
    y := Some(InnerSnapshot(p.left, c));
    UpperBy(t, p.left, c, n, t.inners[n]);
  }

  /** A chain that ends where another does, or at another, is as much apart from the leaves. */
  lemma UpperBy(t: State, id: NodeId, c: Inner, other: NodeId, d: Inner)
    requires id !in t.leaves.table && !c.Abort? && Upper(t.leaves.table.Keys, t.innerSeen, InnerSnapshot(other, d))
    requires (c.Split? && c.sibling == other) || (c.Merge? && HighOf(c.right) == HighOf(d))
    ensures Upper(t.leaves.table.Keys, t.innerSeen, InnerSnapshot(id, c))
  {
  }

  lemma SeenUpper(t: State, x: InnerSnapshot)
    requires KindsApart(t) && x in t.innerSeen
    ensures Upper(t.leaves.table.Keys, t.innerSeen, x) && x.id !in t.leaves.table
  {
    hide HighOf;
  }

  lemma MergeUpper(t: State, step: Step) returns (y: Option<InnerSnapshot>)
    requires Inv(t) && KindsApart(t) && Enabled(t, step) && step.MergeInner?
    ensures y.Some? && After(t, step).innerSeen == t.innerSeen + {y.value} && Upper(t.leaves.table.Keys, t.innerSeen, y.value)
  {
    hide *;
    EnabledMergeInner(t, step);
    var c := t.inners[step.id];
    var c' := Merge(HighOf(c).key, step.removed, step.right, c);
    InstallIs(t, step.id, c');
    CurrentUpper(t, step.id);
    SeenUpper(t, InnerSnapshot(step.id, c));
    SeenUpper(t, InnerSnapshot(step.removed, Remove(step.removed, step.right)));
    DataHigh(Remove(step.removed, step.right));
    y := Some(InnerSnapshot(step.id, c'));
    UpperBy(t, step.id, c', step.removed, Remove(step.removed, step.right));
  }

  lemma RootUpper(t: State, step: Step) returns (y: Option<InnerSnapshot>)
    requires Inv(t) && KindsApart(t) && Enabled(t, step) && step.SplitRoot?
    ensures y.Some? && After(t, step).innerSeen == t.innerSeen + {y.value} && Upper(t.leaves.table.Keys, t.innerSeen, y.value)
  {
    NextUnused(t);
    y := Some(InnerSnapshot(t.nextId, Base(NegInf, PosInf, [Sep(0, t.root), Sep(step.key, step.sibling)])));
    hide Inv, Enabled, KindsApart;
  }
}
