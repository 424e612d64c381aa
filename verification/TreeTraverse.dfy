/** A traversal of the tree while other threads change it.

A traversal keeps snapshots from different moments: of the node it is at, and of the inner node it
came down through.  Between any two of its moves any number of steps of other threads may happen. */
module TreeTraverse {
  import opened BwTypes
  import opened InnerChain
  import opened InnerSearch
  import opened TreeRouting
  import opened TreeKinds
  import L = LeafChain
  import LeafLevel

  datatype Node = LeafNode(leaf: L.Chain) | InnerNode(inner: Inner)

  /** Where a traversal is: the snapshot of a node, and that of the inner node it came down through. */
  datatype Cursor = Cursor(id: NodeId, node: Node, parent: Parent)

  datatype Parent = AtRoot | Below(parentId: NodeId, parentNode: Inner)

  function LowOfNode(n: Node): Low
  {
    if n.LeafNode? then L.LowOf(n.leaf) else LowOf(n.inner)
  }

  function HighOfNode(n: Node): High
  {
    if n.LeafNode? then L.HighOf(n.leaf) else HighOf(n.inner)
  }

  predicate RemovedNode(n: Node)
  {
    if n.LeafNode? then n.leaf.Remove? else n.inner.Remove?
  }

  /** What the mapping table holds for a NodeID at this moment. */
  predicate Maps(t: State, id: NodeId, n: Node)
  {
    if n.LeafNode? then id in t.leaves.table && t.leaves.table[id] == n.leaf else id in t.inners && t.inners[id] == n.inner
  }

  datatype Move =
    | LoadRoot(node: Node)                 // start at the root
    | Reload(node: Node)                   // take the current snapshot of the same node
    | SkipAbort                            // continue with what is under an abort node
    | JumpRight(node: Node)                // go to the right sibling named by the high key
    | Descend(id: NodeId, node: Node)      // go to the child that the search in the inner node gives
    | JumpLeft(id: NodeId, node: Node)     // from a removed node to the left sibling that points to it

  /** A move reads the mapping table of the moment; everything else it uses is what it read before. */
  ghost predicate CanMove(t: State, key: int, c: Cursor, m: Move)
  {
    match m
    case LoadRoot(n) => Maps(t, t.root, n)
    case Reload(n) => Maps(t, c.id, n)
    case SkipAbort => c.node.InnerNode? && c.node.inner.Abort?
    case JumpRight(n) =>
      HighOfNode(c.node).HighAt? && HighOfNode(c.node).key <= key && Maps(t, HighOfNode(c.node).next, n)
    case Descend(id, n) =>
      && c.node.InnerNode? && !c.node.inner.Remove? && !c.node.inner.Abort? && BelowHigh(key, HighOf(c.node.inner))
      && id == Choice(c.node.inner, key) && Maps(t, id, n)
    case JumpLeft(id, n) =>
      && RemovedNode(c.node) && c.parent.Below? && Child(c.parent.parentNode, id)
      && Maps(t, id, n) && HighOfNode(n).HighAt? && HighOfNode(n).next == c.id
  }

  function Moved(t: State, c: Cursor, m: Move): Cursor
  {
    match m
    case LoadRoot(n) => Cursor(t.root, n, AtRoot)
    case Reload(n) => Cursor(c.id, n, c.parent)
    case SkipAbort => if c.node.InnerNode? && c.node.inner.Abort? then Cursor(c.id, InnerNode(c.node.inner.child), c.parent) else c
    case JumpRight(n) => Cursor(if HighOfNode(c.node).HighAt? then HighOfNode(c.node).next else c.id, n, c.parent)
    case Descend(id, n) => if c.node.InnerNode? then Cursor(id, n, Below(c.id, c.node.inner)) else c
    case JumpLeft(id, n) => Cursor(id, n, c.parent)
  }

  ghost predicate GoodNode(lows: map<NodeId, Low>, id: NodeId, n: Node)
  {
    && Names(lows, id, LowOfNode(n)) && HighNamed(HighOfNode(n), lows)
    && (LowOfNode(n).LowAt? ==> BelowHigh(LowOfNode(n).key, HighOfNode(n)))
    && (n.InnerNode? ==> WellFormed(n.inner) && Named(n.inner, lows))
  }

  /** The traversal is never to the right of its key, and below its parent it is at a node that the
      parent's range contains. */
  ghost predicate OnCourse(lows: map<NodeId, Low>, key: int, c: Cursor)
  {
    && GoodNode(lows, c.id, c.node) && AboveLow(key, LowOfNode(c.node))
    && (c.parent.Below? ==>
          && WellFormed(c.parent.parentNode) && Named(c.parent.parentNode, lows)
          && ChildNamed(c.parent.parentNode, c.id, lows))
  }

  // ------------------------------------------------------------------------------------
  // Moves stay on course
  // ------------------------------------------------------------------------------------

  lemma MapsGood(t: State, id: NodeId, n: Node)
    requires Inv(t) && Maps(t, id, n) && id in t.lows
    ensures GoodNode(t.lows, id, n)
  {
    hide LeafLevel.Inv, L.WellFormed, WellFormed, Named, L.LowOf, L.HighOf, LowOf, HighOf, SplitsPending;
    if n.LeafNode? {
      var x := LeafLevel.Snapshot(id, n.leaf);
      assert x in t.leaves.seen && x.chain == n.leaf;
      assert LeafLevel.Live(n.leaf);
    } else {
      var x := InnerSnapshot(id, n.inner);
      assert x in t.innerSeen && x.chain == n.inner;
      HighIsNamed(n.inner, t.lows);
      LowStrictlyBelowHigh(n.inner);
    }
  }

  lemma RightOf(lows: map<NodeId, Low>, key: int, c: Cursor)
    requires OnCourse(lows, key, c) && HighOfNode(c.node).HighAt?
    ensures var h := HighOfNode(c.node);
            && h.next in lows && lows[h.next] == LowAt(h.key)
            && (c.parent.Below? ==> ChildNamed(c.parent.parentNode, h.next, lows))
  {
    hide WellFormed, Named, LowOf, HighOf, L.LowOf, L.HighOf;
  }

  lemma LeftOf(lows: map<NodeId, Low>, parent: Inner, id: NodeId)
    requires WellFormed(parent) && Named(parent, lows)
    requires Child(parent, id)
    ensures ChildNamed(parent, id, lows)
  {
    LowIdNamed(parent, lows);
    if id != LowIdOf(parent) {
      var s :| s in Seps(parent) && s.id == id;
      SepNamed(parent, lows, s);
      SepsInRange(parent, s);
    }
  }

  lemma MoveKeeps(t: State, key: int, c: Cursor, m: Move)
    requires Inv(t) && CanMove(t, key, c, m) && (m.LoadRoot? || OnCourse(t.lows, key, c))
    ensures OnCourse(t.lows, key, Moved(t, c, m))
  {
    hide *;
    CourseIs(t.lows, key, c);
    CourseIs(t.lows, key, Moved(t, c, m));
    match m
    case LoadRoot(n) => RootMove(t, key, c, m);
    case Reload(n) => ReloadMove(t, key, c, m);
    case SkipAbort => AbortMove(t, key, c, m);
    case JumpRight(n) => RightMove(t, key, c, m);
    case Descend(id, n) => DescendMove(t, key, c, m);
    case JumpLeft(id, n) => LeftMove(t, key, c, m);
  }

  lemma CourseIs(lows: map<NodeId, Low>, key: int, c: Cursor)
    ensures OnCourse(lows, key, c) <==>
      && GoodNode(lows, c.id, c.node) && AboveLow(key, LowOfNode(c.node))
      && (c.parent.Below? ==>
            WellFormed(c.parent.parentNode) && Named(c.parent.parentNode, lows) && ChildNamed(c.parent.parentNode, c.id, lows))
  {
    hide GoodNode, LowOfNode, WellFormed, Named, ChildNamed;
  }

  lemma RootMove(t: State, key: int, c: Cursor, m: Move)
    requires Inv(t) && CanMove(t, key, c, m) && m.LoadRoot?
    ensures OnCourse(t.lows, key, Moved(t, c, m))
  {
    MapsGood(t, t.root, m.node);
    hide LeafLevel.Inv, WellFormed, Named, LowOfNode, HighOfNode, LeavesNamed, InnersNamed;
  }

  lemma ReloadMove(t: State, key: int, c: Cursor, m: Move)
    requires Inv(t) && CanMove(t, key, c, m) && m.Reload? && OnCourse(t.lows, key, c)
    ensures OnCourse(t.lows, key, Moved(t, c, m))
  {
    MapsGood(t, c.id, m.node);
    hide Inv, WellFormed, Named, LowOfNode, HighOfNode, ChildNamed;
  }

  lemma AbortMove(t: State, key: int, c: Cursor, m: Move)
    requires CanMove(t, key, c, m) && m.SkipAbort? && OnCourse(t.lows, key, c)
    ensures OnCourse(t.lows, key, Moved(t, c, m))
  {
    hide ChildNamed;
  }

  lemma RightMove(t: State, key: int, c: Cursor, m: Move)
    requires Inv(t) && CanMove(t, key, c, m) && m.JumpRight? && OnCourse(t.lows, key, c)
    ensures OnCourse(t.lows, key, Moved(t, c, m))
  {
    RightOf(t.lows, key, c);
    MapsGood(t, HighOfNode(c.node).next, m.node);
    hide Inv, WellFormed, Named, LowOfNode, HighOfNode, ChildNamed;
  }

  lemma LeadsTo(c: Inner, key: int, id: NodeId, lows: map<NodeId, Low>)
    requires Leads(c, key, id) && Named(c, lows)
    ensures ChildNamed(c, id, lows) && AboveLow(key, lows[id])
  {
    hide Exact, Routes, Named, ChildNamed, AboveLow;
  }

  lemma DescendMove(t: State, key: int, c: Cursor, m: Move)
    requires Inv(t) && CanMove(t, key, c, m) && m.Descend? && OnCourse(t.lows, key, c)
    ensures OnCourse(t.lows, key, Moved(t, c, m))
  {
    ChoiceLeads(c.node.inner, key);
    LeadsTo(c.node.inner, key, m.id, t.lows);
    MapsGood(t, m.id, m.node);
    hide Inv, WellFormed, LowOf, HighOf, Named, Leads, ChildNamed, Choice;
  }

  lemma LeftMove(t: State, key: int, c: Cursor, m: Move)
    requires Inv(t) && CanMove(t, key, c, m) && m.JumpLeft? && OnCourse(t.lows, key, c)
    ensures OnCourse(t.lows, key, Moved(t, c, m))
  {
    LeftOf(t.lows, c.parent.parentNode, m.id);
    MapsGood(t, m.id, m.node);
    hide Inv, WellFormed, LowOf, HighOf, L.LowOf, L.HighOf, Named, ChildNamed;
  }

  /** What others do does not take a traversal off course. */
  lemma ChangeKeeps(lows: map<NodeId, Low>, lows': map<NodeId, Low>, key: int, c: Cursor)
    requires OnCourse(lows, key, c) && Extends(lows, lows')
    ensures OnCourse(lows', key, c)
  {
    if c.node.InnerNode? { NamedGrows(c.node.inner, lows, lows'); }
    if c.parent.Below? { NamedGrows(c.parent.parentNode, lows, lows'); }
    hide WellFormed, Named, LowOf, HighOf, L.LowOf, L.HighOf;
  }

  // ------------------------------------------------------------------------------------
  // The way a traversal came
  // ------------------------------------------------------------------------------------

  /** The traversal holds what was once installed; the inner node it came down through was installed
      under its NodeID and covers the key; and at a leaf there is such a node. */
  ghost predicate Anchored(t: State, key: int, c: Cursor)
  {
    && Held(t, c.id, c.node) && (c.node.LeafNode? ==> c.parent.Below?)
    && (c.parent.Below? ==> Covers(t, key, c.parent.parentId, c.parent.parentNode))
  }

  ghost predicate Held(t: State, id: NodeId, n: Node)
  {
    if n.LeafNode? then LeafLevel.Snapshot(id, n.leaf) in t.leaves.seen else InnerSnapshot(id, n.inner) in t.innerSeen
  }

  ghost predicate Covers(t: State, key: int, id: NodeId, c: Inner)
  {
    InnerSnapshot(id, c) in t.innerSeen && InRange(key, LowOf(c), HighOf(c))
  }

  lemma MappedHeld(t: State, id: NodeId, n: Node)
    requires Inv(t) && Maps(t, id, n)
    ensures Held(t, id, n) && (n.LeafNode? ==> id in t.leaves.table)
  {
    hide LeafLevel.Inv, LeavesNamed, InnersNamed, Published, SplitsPending;
  }

  lemma RootAnchored(t: State, key: int, c: Cursor, m: Move)
    requires Inv(t) && KindsApart(t) && CanMove(t, key, c, m) && m.LoadRoot?
    ensures Anchored(t, key, Moved(t, c, m))
  {
    MappedHeld(t, t.root, m.node);
    RootIsInner(t);
    hide Inv, KindsApart, Held, Covers;
  }

  lemma RootIsInner(t: State)
    requires Inv(t) && KindsApart(t)
    ensures t.root !in t.leaves.table
  {
    InvParts(t);
    hide Inv, KindsApart;
    CurrentUpper(t, t.root);
  }

  /** From an inner node a traversal gets to a leaf only by going down. */
  lemma StaysUpper(t: State, id: NodeId, c: Inner)
    requires KindsApart(t) && InnerSnapshot(id, c) in t.innerSeen
    ensures id !in t.leaves.table && (HighOf(c).HighAt? ==> HighOf(c).next !in t.leaves.table)
    ensures c.Abort? ==> InnerSnapshot(id, c.child) in t.innerSeen
  {
    SeenUpper(t, InnerSnapshot(id, c));
    hide KindsApart, HighOf;
  }

  lemma SideAnchored(t: State, key: int, c: Cursor, m: Move)
    requires Inv(t) && KindsApart(t) && CanMove(t, key, c, m) && Anchored(t, key, c) && (m.Reload? || m.JumpRight?)
    ensures Anchored(t, key, Moved(t, c, m))
  {
    MappedHeld(t, Moved(t, c, m).id, m.node);
    if c.node.InnerNode? { StaysUpper(t, c.id, c.node.inner); }
    hide Inv, KindsApart, Covers, HighOf;
  }

  lemma AbortAnchored(t: State, key: int, c: Cursor, m: Move)
    requires KindsApart(t) && CanMove(t, key, c, m) && Anchored(t, key, c) && m.SkipAbort?
    ensures Anchored(t, key, Moved(t, c, m))
  {
    StaysUpper(t, c.id, c.node.inner);
    hide KindsApart, Covers;
  }

  lemma LeftAnchored(t: State, key: int, c: Cursor, m: Move)
    requires Inv(t) && CanMove(t, key, c, m) && Anchored(t, key, c) && m.JumpLeft?
    ensures Anchored(t, key, Moved(t, c, m))
  {
    MappedHeld(t, m.id, m.node);
    hide Inv, Covers, Held;
  }

  lemma DescendAnchored(t: State, key: int, c: Cursor, m: Move)
    requires Inv(t) && CanMove(t, key, c, m) && OnCourse(t.lows, key, c) && Anchored(t, key, c) && m.Descend?
    ensures Anchored(t, key, Moved(t, c, m))
    ensures Moved(t, c, m).parent == Below(c.id, c.node.inner)
  {
    MappedHeld(t, m.id, m.node);
    hide Inv, HighOf, LowOf, Choice, GoodNode, WellFormed, Named, ChildNamed;
  }

  lemma MoveAnchors(t: State, key: int, c: Cursor, m: Move)
    requires Inv(t) && KindsApart(t) && CanMove(t, key, c, m) && (m.LoadRoot? || (OnCourse(t.lows, key, c) && Anchored(t, key, c)))
    ensures Anchored(t, key, Moved(t, c, m))
  {
    hide *;
    match m
    case LoadRoot(n) => RootAnchored(t, key, c, m);
    case Reload(n) => SideAnchored(t, key, c, m);
    case SkipAbort => AbortAnchored(t, key, c, m);
    case JumpRight(n) => SideAnchored(t, key, c, m);
    case Descend(id, n) => DescendAnchored(t, key, c, m);
    case JumpLeft(id, n) => LeftAnchored(t, key, c, m);
  }

  /** What others do changes nothing about that. */
  lemma StillAnchored(t: State, t': State, key: int, c: Cursor)
    requires Anchored(t, key, c) && t.leaves.seen <= t'.leaves.seen && t.innerSeen <= t'.innerSeen
    ensures Anchored(t', key, c)
  {
    hide LowOf, HighOf;
  }

  /** Every move but skipping an abort node ends on the content of the moment, of the root, of the same
      node, of the node that begins where the node ends, of the child that the search gives, or of the
      one that ends where the removed node begins. */
  lemma MoveArrives(t: State, key: int, c: Cursor, m: Move)
    requires Inv(t) && CanMove(t, key, c, m) && (m.LoadRoot? || OnCourse(t.lows, key, c))
    ensures var c' := Moved(t, c, m);
            && (!m.SkipAbort? ==> Maps(t, c'.id, c'.node))
            && (m.LoadRoot? ==> c'.id == t.root && c'.parent == AtRoot)
            && (m.Reload? || m.SkipAbort? ==> c'.id == c.id)
            && (m.SkipAbort? ==> c.node == InnerNode(Abort(c'.node.inner)))
            && (m.JumpRight? ==> LowOfNode(c'.node) == LowAt(HighOfNode(c.node).key) && HighOfNode(c.node).key <= key)
            && (m.Descend? ==> c.node.InnerNode? && c'.id == Choice(c.node.inner, key) && c'.parent == Below(c.id, c.node.inner))
            && (m.JumpLeft? ==> RemovedNode(c.node) && HighOfNode(c'.node) == HighAt(HighOfNode(c'.node).key, c.id) && LowOfNode(c.node) == LowAt(HighOfNode(c'.node).key))
            && (!m.LoadRoot? && !m.Descend? ==> c'.parent == c.parent)
  {
    hide Choice;
    match m
    case LoadRoot(n) =>
    case Reload(n) =>
    case SkipAbort =>
    case Descend(id, n) =>
    case JumpRight(n) =>
      RightOf(t.lows, key, c);
      MapsGood(t, HighOfNode(c.node).next, n);
      hide Inv, LowOfNode, HighOfNode, WellFormed, Named;
    case JumpLeft(id, n) =>
      LeftOf(t.lows, c.parent.parentNode, id) by { hide Inv, LowOfNode, HighOfNode, LowOf, HighOf; }
      MapsGood(t, id, n);
      hide Inv, LowOfNode, HighOfNode, WellFormed, Named;
  }

  /** A traversal is never stuck: it skips an abort node, goes right if its key is not below the high
      key, and goes down otherwise; only a removed node may make it start again. */
  lemma NeverStuck(t: State, key: int, c: Cursor) returns (m: Move)
    requires Inv(t) && OnCourse(t.lows, key, c) && !RemovedNode(c.node)
    requires c.node.LeafNode? ==> !BelowHigh(key, HighOfNode(c.node))
    ensures CanMove(t, key, c, m) && (m.SkipAbort? || m.JumpRight? || m.Descend?)
  {
    if c.node.InnerNode? && c.node.inner.Abort? {
      m := SkipAbort;
    } else if !BelowHigh(key, HighOfNode(c.node)) {
      RightOf(t.lows, key, c);
      var n := Mapped(t, HighOfNode(c.node).next);
      m := JumpRight(n);
    } else {
      var id := Choice(c.node.inner, key);
      GoesDown(t, key, c);
      var n := Mapped(t, id);
      m := Descend(id, n);
    }
  }

  /** Whatever it is at, it can look at the node again. */
  lemma MayLookAgain(t: State, key: int, c: Cursor) returns (n: Node)
    requires Inv(t) && OnCourse(t.lows, key, c)
    ensures CanMove(t, key, c, Reload(n))
  {
    n := Mapped(t, c.id) by { hide Inv, GoodNode, WellFormed; assert GoodNode(t.lows, c.id, c.node); GoodNamed(t.lows, c.id, c.node); }
  }

  lemma GoodNamed(lows: map<NodeId, Low>, id: NodeId, n: Node)
    requires GoodNode(lows, id, n)
    ensures id in lows
  {
    hide WellFormed, Named, LowOfNode, HighOfNode;
  }

  /** From a removed node it can go to any child of the parent it came through that ends there now. */
  lemma MayGoLeft(t: State, key: int, c: Cursor, id: NodeId, n: Node)
    requires RemovedNode(c.node) && c.parent.Below? && Child(c.parent.parentNode, id)
    requires Maps(t, id, n) && HighOfNode(n).HighAt? && HighOfNode(n).next == c.id
    ensures CanMove(t, key, c, JumpLeft(id, n))
  {
  }

  ghost predicate Child(parent: Inner, id: NodeId)
  {
    id == LowIdOf(parent) || exists s :: s in Seps(parent) && s.id == id
  }

  lemma GoesDown(t: State, key: int, c: Cursor)
    requires Inv(t) && OnCourse(t.lows, key, c) && c.node.InnerNode? && !c.node.inner.Remove? && !c.node.inner.Abort? && BelowHigh(key, HighOfNode(c.node))
    ensures Choice(c.node.inner, key) in t.lows
  {
    InPlaceHere(t, key, c);
    ChoiceLeads(c.node.inner, key);
    LeadsTo(c.node.inner, key, Choice(c.node.inner, key), t.lows) by { hide Inv, Choice, Leads, WellFormed; }
    hide Inv, Choice, Leads, WellFormed, OnCourse;
  }

  lemma InPlaceHere(t: State, key: int, c: Cursor)
    requires OnCourse(t.lows, key, c) && c.node.InnerNode? && !c.node.inner.Remove? && !c.node.inner.Abort? && BelowHigh(key, HighOfNode(c.node))
    ensures InPlace(c.node.inner, key) && Named(c.node.inner, t.lows)
  {
    hide WellFormed, Named, LowOf, HighOf, ChildNamed;
  }

  /** Every published NodeID is in the mapping table. */
  lemma Mapped(t: State, id: NodeId) returns (n: Node)
    requires Inv(t) && id in t.lows
    ensures Maps(t, id, n)
  {
    InvParts(t);
    hide Inv;
    n := if id in t.leaves.table then LeafNode(t.leaves.table[id]) else InnerNode(t.inners[id]);
  }

  // ------------------------------------------------------------------------------------
  // Any interleaving
  // ------------------------------------------------------------------------------------

  datatype Session = Idle | On(cursor: Cursor)

  datatype Event = Change(step: Step) | Go(move: Move)

  ghost predicate Moves(t: State, key: int, s: Session, m: Move, s': Session)
  {
    s'.On? && if s.On? then CanMove(t, key, s.cursor, m) && s'.cursor == Moved(t, s.cursor, m)
              else m.LoadRoot? && Maps(t, t.root, m.node) && s'.cursor == Cursor(t.root, m.node, AtRoot)
  }

  /** The traversal and all other threads, from one state to another. */
  ghost predicate Trace(t: State, key: int, s: Session, events: seq<Event>, states: seq<State>, sessions: seq<Session>)
  {
    && |states| == |sessions| == |events| + 1 && states[0] == t && sessions[0] == s
    && forall i :: 0 <= i < |events| ==>
         match events[i]
         case Change(step) => Enabled(states[i], step) && states[i + 1] == After(states[i], step) && sessions[i + 1] == sessions[i]
         case Go(m) => states[i + 1] == states[i] && Moves(states[i], key, sessions[i], m, sessions[i + 1])
  }

  ghost predicate Sound(t: State, key: int, s: Session)
  {
    Inv(t) && (s.On? ==> OnCourse(t.lows, key, s.cursor))
  }

  /** And it knows the way it came. */
  ghost predicate Guided(t: State, key: int, s: Session)
  {
    Sound(t, key, s) && KindsApart(t) && (s.On? ==> Anchored(t, key, s.cursor))
  }

  lemma EventKeeps(t: State, key: int, s: Session, e: Event, t': State, s': Session)
    requires Sound(t, key, s)
    requires e.Change? ==> Enabled(t, e.step) && t' == After(t, e.step) && s' == s
    requires e.Go? ==> t' == t && Moves(t, key, s, e.move, s')
    ensures Sound(t', key, s')
  {
    hide Inv, OnCourse, Enabled, After, Extends;
    if e.Change? {
      StepKeeps(t, e.step);
      if s.On? { ChangeKeeps(t.lows, t'.lows, key, s.cursor); }
    } else if s.On? {
      MoveKeeps(t, key, s.cursor, e.move);
    } else {
      var c := Cursor(t.root, e.move.node, AtRoot);
      MoveKeeps(t, key, c, e.move);
    }
  }

  lemma EventGuides(t: State, key: int, s: Session, e: Event, t': State, s': Session)
    requires Guided(t, key, s)
    requires e.Change? ==> Enabled(t, e.step) && t' == After(t, e.step) && s' == s
    requires e.Go? ==> t' == t && Moves(t, key, s, e.move, s')
    ensures Guided(t', key, s')
  {
    hide Inv, KindsApart, OnCourse, Anchored, Enabled, After, Extends;
    EventKeeps(t, key, s, e, t', s');
    if e.Change? {
      StepKeeps(t, e.step);
      StepApart(t, e.step);
      if s.On? { StillAnchored(t, t', key, s.cursor); }
    } else if s.On? {
      MoveAnchors(t, key, s.cursor, e.move);
    } else {
      MoveAnchors(t, key, Cursor(t.root, e.move.node, AtRoot), e.move);
    }
  }

  lemma {:induction false} TraceKeeps(t: State, key: int, s: Session, events: seq<Event>, states: seq<State>, sessions: seq<Session>, i: nat)
    requires Trace(t, key, s, events, states, sessions) && Guided(t, key, s) && i <= |events|
    ensures Guided(states[i], key, sessions[i])
  {
    hide Guided, Enabled, After, Moves;
    if i > 0 {
      TraceKeeps(t, key, s, events, states, sessions, i - 1);
      var e := events[i - 1];
      assert states[i - 1 + 1] == states[i] && sessions[i - 1 + 1] == sessions[i];
      EventGuides(states[i - 1], key, sessions[i - 1], e, states[i], sessions[i]);
    }
  }

  lemma SoundIs(t: State, key: int)
    ensures Sound(t, key, Idle) <==> Inv(t)
  {
    hide Inv;
  }

  lemma InitSound(t: State, key: int)
    requires Init(t)
    ensures Sound(t, key, Idle)
  {
    var r: NodeId, f: NodeId :|
      && r != f && r < t.nextId && f < t.nextId
      && t.leaves == LeafLevel.State(map[f := L.Leaf(NegInf, PosInf, [])], [f], map[], {LeafLevel.Snapshot(f, L.Leaf(NegInf, PosInf, []))})
      && t.inners == map[r := Base(NegInf, PosInf, [Sep(0, f)])] && t.innerPending == map[]
      && t.innerSeen == {InnerSnapshot(r, Base(NegInf, PosInf, [Sep(0, f)]))}
      && t.root == r && t.lows == map[r := NegInf, f := NegInf];
    LeafLevel.InitInv(t.leaves);
    hide LeafLevel.Inv;
    var leaf := L.Leaf(NegInf, PosInf, []);
    assert LeafLevel.Live(leaf) by { assert L.WellFormed(leaf); }
    assert WellFormed(Base(NegInf, PosInf, [Sep(0, f)]));
  }

  /** From the empty tree, whatever other threads do in between: a traversal that has come to a leaf
      whose high key is above its key is at a leaf whose range contains the key, under a NodeID that is
      not that of an uninstalled sibling; it holds a leaf that was installed there, and it has come down
      through an inner node that was installed and covers the key.  The root is never a leaf. */
  lemma TraverseEnds(t: State, key: int, events: seq<Event>, states: seq<State>, sessions: seq<Session>)
    requires Init(t) && Trace(t, key, Idle, events, states, sessions)
    ensures var t', s := states[|events|], sessions[|events|];
            Inv(t') && (s.On? && s.cursor.node.LeafNode? && BelowHigh(key, L.HighOf(s.cursor.node.leaf)) ==>
              && InRange(key, L.LowOf(s.cursor.node.leaf), L.HighOf(s.cursor.node.leaf))
              && s.cursor.id in t'.lows && s.cursor.id !in t'.leaves.pending)
    ensures var t', s := states[|events|], sessions[|events|];
            && t'.root in t'.inners && t'.root !in t'.leaves.table
            && (s.On? && s.cursor.node.LeafNode? ==>
                  var p := s.cursor.parent;
                  && LeafLevel.Snapshot(s.cursor.id, s.cursor.node.leaf) in t'.leaves.seen
                  && p.Below? && InnerSnapshot(p.parentId, p.parentNode) in t'.innerSeen
                  && InRange(key, LowOf(p.parentNode), HighOf(p.parentNode))
                  && WellFormed(p.parentNode) && Named(p.parentNode, t'.lows) && ChildNamed(p.parentNode, s.cursor.id, t'.lows))
    ensures Sound(states[|events|], key, sessions[|events|])
  {
    InitSound(t, key);
    InitApart(t);
    TraceKeeps(t, key, Idle, events, states, sessions, |events|);
    hide *;
    GuidedEnds(states[|events|], key, sessions[|events|]);
  }

  lemma GuidedEnds(t: State, key: int, s: Session)
    requires Guided(t, key, s)
    ensures Sound(t, key, s) && Inv(t) && t.root in t.inners && t.root !in t.leaves.table
    ensures s.On? && s.cursor.node.LeafNode? && BelowHigh(key, L.HighOf(s.cursor.node.leaf)) ==> InRange(key, L.LowOf(s.cursor.node.leaf), L.HighOf(s.cursor.node.leaf))
    ensures s.On? ==> s.cursor.id in t.lows && s.cursor.id !in t.leaves.pending
    ensures s.On? && s.cursor.node.LeafNode? ==>
              && LeafLevel.Snapshot(s.cursor.id, s.cursor.node.leaf) in t.leaves.seen
              && s.cursor.parent.Below? && InnerSnapshot(s.cursor.parent.parentId, s.cursor.parent.parentNode) in t.innerSeen
              && InRange(key, LowOf(s.cursor.parent.parentNode), HighOf(s.cursor.parent.parentNode))
    ensures s.On? && s.cursor.parent.Below? ==>
              && WellFormed(s.cursor.parent.parentNode) && Named(s.cursor.parent.parentNode, t.lows)
              && ChildNamed(s.cursor.parent.parentNode, s.cursor.id, t.lows)
  {
    RootIsInner(t);
    hide LeafLevel.Inv, LeavesNamed, InnersNamed, L.LowOf, L.HighOf, LowOf, HighOf, Named, WellFormed, ChildNamed, KindsApart, Current, SplitsPending;
  }

  // ------------------------------------------------------------------------------------
  // What a traversal has made sure of when it installs something
  // ------------------------------------------------------------------------------------

  /** If the leaf it came to is still in the table, the insertion or deletion it then installs, with
      what the lookup in the leaf returned, is a step of the tree; and the lookup spoke for the whole
      tree. */
  lemma ItemStepAllowed(t: State, key: int, c: Cursor, value: int, index: nat, ex: bool)
    requires Sound(t, key, On(c)) && c.node.LeafNode? && !c.node.leaf.Remove? && BelowHigh(key, L.HighOf(c.node.leaf))
    requires Maps(t, c.id, c.node)
    requires L.Placed(L.BaseFor(c.node.leaf, key).items, Item(key, value), index, ex)
    ensures Item(key, value) in L.Replay(c.node.leaf) <==> LeafLevel.Stored(t.leaves, Item(key, value))
    ensures Enabled(t, OnLeaves(if LeafLevel.Stored(t.leaves, Item(key, value))
                                then LeafLevel.DeleteItem(c.id, Item(key, value), index, ex)
                                else LeafLevel.InsertItem(c.id, Item(key, value), index, ex)))
  {
    CursorReachable(t, key, c);
    hide OnCourse, LeafLevel.Inv, LeavesNamed, InnersNamed, L.Placed, L.Replay, L.LowOf, L.HighOf, L.BaseFor, L.WellFormed, LeafLevel.Stored;
    LeafLevel.LookupAnswers(t.leaves, c.id, key, value);
  }

  lemma CursorReachable(t: State, key: int, c: Cursor)
    requires Sound(t, key, On(c)) && c.node.LeafNode? && Maps(t, c.id, c.node)
    ensures LeafLevel.Reachable(t.leaves, c.id) && AboveLow(key, L.LowOf(c.node.leaf)) && c.id in t.lows
  {
    hide LeafLevel.Inv, LeavesNamed, InnersNamed, Named, WellFormed, L.LowOf, L.HighOf;
  }

  /** A node that is not the leftmost child of the parent it was reached through has a low key, so the
      first leaf is never removed. */
  lemma NotLeftmostHasLowKey(t: State, key: int, c: Cursor)
    requires Sound(t, key, On(c)) && c.parent.Below? && LowIdOf(c.parent.parentNode) != c.id
    ensures LowOfNode(c.node).LowAt?
  {
    hide Inv, Named, WellFormed, LowOf, LowOfNode, HighOfNode;
  }

  /** Finishing a split: if the parent has not changed, does not have the separator, and its range
      contains it, posting it is a step of the tree. */
  lemma PostInsertAllowed(t: State, key: int, c: Cursor, k: int, newId: NodeId, next: High, loc: nat)
    requires Sound(t, key, On(c)) && c.parent.Below? && SplitSeen(t, c.id, k, newId, next)
    requires Open(t, c.parent.parentId) && t.inners[c.parent.parentId] == c.parent.parentNode
    requires BelowHigh(k, HighOf(c.parent.parentNode)) && !Has(c.parent.parentNode, k)
    requires Located(BaseFor(c.parent.parentNode, k), k, loc)
    ensures Enabled(t, PostInsert(c.parent.parentId, c.id, k, newId, next, loc))
  {
    hide Inv, Named, WellFormed, HighOf, Located, BaseFor, Has, SplitSeen, GoodNode;
  }

  /** Finishing a merge: if the parent has not changed and has the separator, deleting it, with the
      node it was reached at as its left neighbour, is a step of the tree. */
  lemma PostDeleteAllowed(t: State, key: int, c: Cursor, prevKey: int, k: int, removed: NodeId, next: High, loc: nat)
    requires Sound(t, key, On(c)) && c.parent.Below? && MergeSeen(t, c.id, k, removed, next)
    requires Open(t, c.parent.parentId) && t.inners[c.parent.parentId] == c.parent.parentNode
    requires BelowHigh(k, HighOf(c.parent.parentNode)) && Has(c.parent.parentNode, k)
    requires Located(BaseFor(c.parent.parentNode, k), k, loc)
    requires LowOfNode(c.node).LowAt? ==> LowOfNode(c.node).key == prevKey
    ensures Enabled(t, PostDelete(c.parent.parentId, c.id, prevKey, k, removed, next, loc))
  {
    CursorNamed(t, key, c);
    hide Sound, Named, WellFormed, HighOf, Located, BaseFor, Has, MergeSeen, LowOfNode, Names;
  }

  lemma CursorNamed(t: State, key: int, c: Cursor)
    requires Sound(t, key, On(c))
    ensures c.id in t.lows && t.lows[c.id] == LowOfNode(c.node)
    ensures c.parent.Below? ==> ChildNamed(c.parent.parentNode, c.id, t.lows)
  {
    hide Inv, Named, WellFormed, HighOfNode, LowOfNode, ChildNamed;
  }
}
