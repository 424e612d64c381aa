/** Cutting a laid-out trie along the path to a key: the branches that the path leaves on one side are
kept and chained, the others go with all that is behind them. */
module TriePrune {
  import opened Keys
  import opened Trie
  import opened TrieEdits
  import opened TrieLayout
  import opened TrieWalk
  import opened TrieRelink

  /** What is left of a shape up to the key at `r`, or from it on. */
  function PruneShape(s: Shape, r: nat, large: bool): (u: Shape)
    requires r < Leaves(s)
  {
    match s
    case KeyAt(_) => s
    case Branch(i, l, h) =>
      if r >= Leaves(l) then
        if large then Branch(i, l, PruneShape(h, r - Leaves(l), large)) else PruneShape(h, r - Leaves(l), large)
      else
        if large then PruneShape(l, r, large) else Branch(i, PruneShape(l, r, large), h)
  }

  lemma {:induction false} PruneSlots(s: Shape, r: nat, large: bool)
    requires r < Leaves(s) && Distinct(s)
    ensures var u := PruneShape(s, r, large);
            Distinct(u) && Leaves(u) == (if large then r + 1 else Leaves(s) - r) && Branches(u) <= Branches(s) && KeySlots(u) <= KeySlots(s)
  {
    if s.Branch? {
      Parts(s);
      PruneSlots(Child(s, r), ChildIndex(s, r), large);
    }
  }

  /** The path runs through slots of the pointer array. */
  ghost predicate Along(side: seq<nat>, p: seq<nat>)
  {
    |p| > 0 && forall k :: 0 <= k < |p| - 1 ==> p[k] < |side|
  }

  /** From a place on the path on, the next branch that is kept, or the key at the end. */
  ghost function NextKept(side: seq<nat>, p: seq<nat>, i: nat): (k: nat)
    requires Along(side, p) && i < |p|
    ensures i <= k < |p|
    decreases |p| - i
  {
    if i == |p| - 1 || side[p[i]] == p[i + 1] then i else NextKept(side, p, i + 1)
  }

  lemma {:induction false} NextKeptLater(side: seq<nat>, x: nat, p: seq<nat>, i: nat)
    requires Along(side, p) && Along(side, [x] + p) && i < |p|
    ensures NextKept(side, [x] + p, i + 1) == NextKept(side, p, i) + 1
    decreases |p| - i
  {
    var q := [x] + p;
    assert q[i + 1] == p[i];
    if i < |p| - 1 {
      assert q[i + 2] == p[i + 1];
      if side[p[i]] != p[i + 1] { NextKeptLater(side, x, p, i + 1); }
    }
  }

  /** A kept branch of the path points to the next one. */
  ghost predicate ChainedAt(side: seq<nat>, side': seq<nat>, p: seq<nat>, k: nat)
    requires Along(side, p) && |side'| == |side| && k < |p| - 1
  {
    side[p[k]] == p[k + 1] ==> side'[p[k]] == p[NextKept(side, p, k + 1)]
  }

  ghost predicate Chained(side: seq<nat>, side': seq<nat>, p: seq<nat>)
    requires Along(side, p) && |side'| == |side|
  {
    forall k :: 0 <= k < |p| - 1 ==> ChainedAt(side, side', p, k)
  }

  ghost predicate KeptSlot(side: seq<nat>, p: seq<nat>, x: nat)
  {
    exists k :: 0 <= k < |p| - 1 && p[k] == x && x < |side| && side[x] == p[k + 1]
  }

  /** Only pointers of kept branches are changed. */
  ghost predicate OnlyKept(side: seq<nat>, side': seq<nat>, p: seq<nat>, s: Shape)
    requires |side'| == |side|
  {
    forall x :: x in Branches(s) && x < |side| && side'[x] != side[x] ==> KeptSlot(side, p, x)
  }

  function SideOf(tab: Table, large: bool): (side: seq<nat>)
  {
    if large then tab.large else tab.small
  }

  /** The same table with other pointers on one side. */
  predicate OneSideCut(tab: Table, tab': Table, large: bool)
  {
    && tab'.bits == tab.bits && tab'.keys == tab.keys && tab'.area == tab.area && |SideOf(tab', large)| == |SideOf(tab, large)|
    && SideOf(tab', !large) == SideOf(tab, !large)
  }

  lemma PathAlong(s: Shape, tab: Table, r: nat, large: bool)
    requires Laid(s, tab) && r < Leaves(s)
    ensures Along(SideOf(tab, large), PathTo(s, tab.area, r))
  {
    PathEnds(s, tab, r);
    hide PathTo, Laid;
  }

  lemma ChainedAtLater(side: seq<nat>, side': seq<nat>, x: nat, p: seq<nat>, k: nat)
    requires |side'| == |side| && Along(side, p) && Along(side, [x] + p) && k < |p| - 1
    ensures ChainedAt(side, side', [x] + p, k + 1) ==> ChainedAt(side, side', p, k)
  {
    NextKeptLater(side, x, p, k + 1);
    hide NextKept, Along;
    var q := [x] + p;
    assert q[k + 1] == p[k] && q[k + 2] == p[k + 1];
    assert q[NextKept(side, p, k + 1) + 1] == p[NextKept(side, p, k + 1)];
  }

  /** Behind the first branch the path is as that of the child. */
  lemma ChainedLater(side: seq<nat>, side': seq<nat>, x: nat, p: seq<nat>)
    requires |side'| == |side| && Along(side, p) && Along(side, [x] + p) && Chained(side, side', [x] + p)
    ensures Chained(side, side', p)
  {
    hide ChainedAt, Along;
    forall k | 0 <= k < |p| - 1
      ensures ChainedAt(side, side', p, k)
    {
      assert |[x] + p| == |p| + 1 && ChainedAt(side, side', [x] + p, k + 1);
      ChainedAtLater(side, side', x, p, k);
    }
  }

  /** The first branch of a path: it is kept, or what follows takes its place. */
  lemma ChainedFirst(side: seq<nat>, side': seq<nat>, x: nat, p: seq<nat>)
    requires |side'| == |side| && Along(side, p) && Along(side, [x] + p) && Chained(side, side', [x] + p)
    ensures x < |side|
    ensures side[x] == p[0] ==> side'[x] == p[NextKept(side, p, 0)]
    ensures ([x] + p)[NextKept(side, [x] + p, 0)] == if side[x] == p[0] then x else p[NextKept(side, p, 0)]
  {
    var q := [x] + p;
    assert q[0] == x && q[1] == p[0] && |q| == |p| + 1;
    NextKeptLater(side, x, p, 0);
    assert ChainedAt(side, side', q, 0);
    assert q[NextKept(side, p, 0) + 1] == p[NextKept(side, p, 0)];
    FirstKept(side, q);
    hide NextKept;
  }

  lemma FirstKept(side: seq<nat>, q: seq<nat>)
    requires Along(side, q) && |q| > 1
    ensures NextKept(side, q, 0) == if side[q[0]] == q[1] then 0 else NextKept(side, q, 1)
  {
  }

  lemma OnlyKeptLater(side: seq<nat>, side': seq<nat>, p: seq<nat>, s: Shape, c: Shape)
    requires |side'| == |side| && s.Branch? && Distinct(s) && (c == s.small || c == s.large) && OnlyKept(side, side', [s.slot] + p, s)
    ensures OnlyKept(side, side', p, c)
  {
    Parts(s);
    var q := [s.slot] + p;
    forall x | x in Branches(c) && x < |side| && side'[x] != side[x]
      ensures KeptSlot(side, p, x)
    {
      assert x in Branches(s) && KeptSlot(side, q, x);
      var k :| 0 <= k < |q| - 1 && q[k] == x && side[x] == q[k + 1];
      assert k > 0 && p[k - 1] == x && p[k - 1 + 1] == q[k + 1];
    }
  }

  /** What the path does not go through is unchanged. */
  lemma AsideKept(o: Shape, c: Shape, tab: Table, tab': Table, w: nat, large: bool)
    requires Laid(o, tab) && Laid(c, tab) && w < Leaves(c) && Branches(o) !! Branches(c)
    requires OneSideCut(tab, tab', large) && OnlyKept(SideOf(tab, large), SideOf(tab', large), PathTo(c, tab.area, w), o)
    ensures Laid(o, tab') && TrieOf(o, tab') == TrieOf(o, tab)
  {
    PathEnds(c, tab, w);
    var p := PathTo(c, tab.area, w);
    hide Laid, PathTo, TrieOf;
    forall i | i in Branches(o) && Slots(tab, i)
      ensures SameSlot(tab, tab', i)
    {
      NotOnPath(SideOf(tab, large), p, i);
    }
    SameIf(o, tab, tab');
    Frame(o, tab, tab');
  }

  lemma NotOnPath(side: seq<nat>, q: seq<nat>, i: nat)
    requires forall k :: 0 <= k < |q| - 1 ==> q[k] != i
    ensures !KeptSlot(side, q, i)
  {
  }

  /** The parts of a branch on a path. */
  lemma PathParts(s: Shape, tab: Table, r: nat, large: bool)
    requires Laid(s, tab) && Distinct(s) && s.Branch? && r < Leaves(s)
    ensures var c, w, o := Child(s, r), ChildIndex(s, r), if r >= Leaves(s.small) then s.small else s.large;
            && (c == s.small || c == s.large) && Laid(c, tab) && Distinct(c) && Laid(o, tab) && Branches(o) !! Branches(c)
            && PathTo(s, tab.area, r) == [s.slot] + PathTo(c, tab.area, w) && PathTo(c, tab.area, w)[0] == Ptr(c, tab.area)
            && (s.slot < |SideOf(tab, large)| ==> (SideOf(tab, large)[s.slot] == Ptr(c, tab.area) <==> (r >= Leaves(s.small)) == large))
            && PruneShape(s, r, large) == (if (r >= Leaves(s.small)) != large then PruneShape(c, w, large)
                                           else if large then Branch(s.slot, o, PruneShape(c, w, large)) else Branch(s.slot, PruneShape(c, w, large), o))
  {
    PathStep(s, tab.area, r);
    PointersDiffer(s, tab);
    hide PathTo;
  }

  /** The trie that is left, from that of the child on the path. */
  lemma PruneTrie(s: Shape, tab: Table, r: nat, large: bool)
    requires Laid(s, tab) && s.Branch? && r < Leaves(s)
    ensures var t, c, w := TrieOf(s, tab), Child(s, r), ChildIndex(s, r);
            && r < Size(t) && Laid(c, tab) && w < Size(TrieOf(c, tab)) && t.Node?
            && var u := if large then Take(TrieOf(c, tab), w + 1) else Drop(TrieOf(c, tab), w);
            (if large then Take(t, r + 1) else Drop(t, r))
            == if (r >= Leaves(s.small)) != large then u else if large then Node(t.bit, t.left, u) else Node(t.bit, u, t.right)
  {
    hide *;
    BranchTrie(s, tab);
    LeavesAreKeys(s, tab);
    LeavesAreKeys(s.small, tab);
    ChildIs(s, r);
    if large { TakeStep(TrieOf(s, tab), r); } else { DropStep(TrieOf(s, tab), r); }
  }

  lemma BranchTrie(s: Shape, tab: Table)
    requires Laid(s, tab) && s.Branch?
    ensures Laid(s.small, tab) && Laid(s.large, tab) && TrieOf(s, tab).Node?
    ensures TrieOf(s, tab).left == TrieOf(s.small, tab) && TrieOf(s, tab).right == TrieOf(s.large, tab)
    ensures Size(TrieOf(s, tab)) == Size(TrieOf(s.small, tab)) + Size(TrieOf(s.large, tab))
  {
  }

  lemma ChildIs(s: Shape, r: nat)
    requires s.Branch? && r < Leaves(s)
    ensures Child(s, r) == if r < Leaves(s.small) then s.small else s.large
    ensures ChildIndex(s, r) == if r < Leaves(s.small) then r else r - Leaves(s.small)
  {
  }

  lemma TakeStep(t: Trie, r: nat)
    requires t.Node? && r < Size(t)
    ensures Take(t, r + 1) == if r < Size(t.left) then Take(t.left, r + 1) else Node(t.bit, t.left, Take(t.right, r - Size(t.left) + 1))
  {
  }

  lemma DropStep(t: Trie, r: nat)
    requires t.Node? && r < Size(t)
    ensures Drop(t, r) == if r < Size(t.left) then Node(t.bit, Drop(t.left, r), t.right) else Drop(t.right, r - Size(t.left))
  {
  }

  lemma PruneKey(s: Shape, tab: Table, tab': Table, large: bool)
    requires s.KeyAt? && Laid(s, tab) && OneSideCut(tab, tab', large)
    ensures Laid(PruneShape(s, 0, large), tab') && Size(TrieOf(s, tab)) == 1 && PathTo(s, tab.area, 0) == [Ptr(s, tab.area)]
    ensures Along(SideOf(tab, large), PathTo(s, tab.area, 0)) && NextKept(SideOf(tab, large), PathTo(s, tab.area, 0), 0) == 0
    ensures TrieOf(PruneShape(s, 0, large), tab') == (if large then Take(TrieOf(s, tab), 1) else Drop(TrieOf(s, tab), 0))
    ensures PruneShape(s, 0, large) == s && Leaves(s) == 1
  {
  }

  /** The chained pointers lay out what is left of the shape. */
  lemma {:induction false} PruneLaid(s: Shape, tab: Table, tab': Table, r: nat, large: bool)
    requires Laid(s, tab) && Distinct(s) && r < Leaves(s) && OneSideCut(tab, tab', large)
    requires Along(SideOf(tab, large), PathTo(s, tab.area, r))
    requires Chained(SideOf(tab, large), SideOf(tab', large), PathTo(s, tab.area, r))
    requires OnlyKept(SideOf(tab, large), SideOf(tab', large), PathTo(s, tab.area, r), s)
    ensures Laid(PruneShape(s, r, large), tab') && r < Size(TrieOf(s, tab))
    ensures TrieOf(PruneShape(s, r, large), tab') == if large then Take(TrieOf(s, tab), r + 1) else Drop(TrieOf(s, tab), r)
    ensures var p := PathTo(s, tab.area, r); Ptr(PruneShape(s, r, large), tab.area) == p[NextKept(SideOf(tab, large), p, 0)]
  {
    hide *;
    if s.KeyAt? {
      PruneKey(s, tab, tab', large);
    } else {
      var c, w, side, side' := Child(s, r), ChildIndex(s, r), SideOf(tab, large), SideOf(tab', large);
      var o := if r >= Leaves(s.small) then s.small else s.large;
      OneSideSize(tab, tab', large);
      PathParts(s, tab, r, large);
      PathAlong(c, tab, w, large);
      ChainedLater(side, side', s.slot, PathTo(c, tab.area, w));
      ChainedFirst(side, side', s.slot, PathTo(c, tab.area, w));
      OnlyKeptLater(side, side', PathTo(c, tab.area, w), s, c);
      OnlyKeptLater(side, side', PathTo(c, tab.area, w), s, o);
      PruneLaid(c, tab, tab', w, large);
      PruneTrie(s, tab, r, large);
      AsideKept(o, c, tab, tab', w, large);
      PruneTop(s, tab, tab', r, large);
    }
  }

  lemma OneSideSize(tab: Table, tab': Table, large: bool)
    requires OneSideCut(tab, tab', large)
    ensures |SideOf(tab', large)| == |SideOf(tab, large)|
  {
  }

  lemma PruneTop(s: Shape, tab: Table, tab': Table, r: nat, large: bool)
    requires Laid(s, tab) && s.Branch? && r < Leaves(s) && OneSideCut(tab, tab', large)
    requires var c, w, o := Child(s, r), ChildIndex(s, r), if r >= Leaves(s.small) then s.small else s.large;
             && Laid(o, tab) && Laid(o, tab') && TrieOf(o, tab') == TrieOf(o, tab) && Laid(PruneShape(c, w, large), tab') && s.slot < |SideOf(tab', large)|
             && ((r >= Leaves(s.small)) == large ==> SideOf(tab', large)[s.slot] == Ptr(PruneShape(c, w, large), tab.area))
             && PruneShape(s, r, large) == (if (r >= Leaves(s.small)) != large then PruneShape(c, w, large)
                                            else if large then Branch(s.slot, o, PruneShape(c, w, large)) else Branch(s.slot, PruneShape(c, w, large), o))
    ensures Laid(PruneShape(s, r, large), tab')
    ensures Ptr(PruneShape(s, r, large), tab.area)
            == if (r >= Leaves(s.small)) != large then Ptr(PruneShape(Child(s, r), ChildIndex(s, r), large), tab.area) else s.slot
    ensures var t, u := TrieOf(s, tab), TrieOf(PruneShape(Child(s, r), ChildIndex(s, r), large), tab');
            && t.Node?
            && TrieOf(PruneShape(s, r, large), tab')
               == if (r >= Leaves(s.small)) != large then u else if large then Node(t.bit, t.left, u) else Node(t.bit, u, t.right)
  {
    hide Leaves, PruneShape;
  }
}
