/** How the slots of the tree of range minima follow an edit of the differences. */
module TreeEdits {
  import opened Keys
  import opened NodeArrays
  import opened DiffScan
  import opened DiffEdits
  import opened RangeMinima

  // ------------------------------------------------------------------------------------
  // Insertion
  // ------------------------------------------------------------------------------------

  /** A position from the new one on moves up by one. */
  function Shifted(t: nat, x: nat): nat
  {
    if t != END_TREE && t >= x then t + 1 else t
  }

  lemma InsertedValue(diffs: seq<nat>, x: nat, d: nat, j: nat)
    requires x <= |diffs| && j <= |diffs|
    ensures InsertedAt(diffs, x, d)[j] == if j < x then diffs[j] else if j == x then d else diffs[j - 1]
  {
  }

  lemma SlotLeftOf(diffs: seq<nat>, lo: nat, hi: nat, t: nat, x: nat, d: nat)
    requires hi <= x <= |diffs| < END_TREE && Slot(diffs, lo, hi, t)
    ensures Slot(InsertedAt(diffs, x, d), lo, hi, Shifted(t, x)) && Shifted(t, x) == t
  {
  }

  lemma SlotRightOf(diffs: seq<nat>, lo: nat, hi: nat, t: nat, x: nat, d: nat)
    requires x <= lo <= hi <= |diffs| < END_TREE && Slot(diffs, lo, hi, t)
    ensures Slot(InsertedAt(diffs, x, d), lo + 1, hi + 1, Shifted(t, x))
  {
    if lo < hi {
      forall j | lo + 1 <= j < hi + 1
        ensures InsertedAt(diffs, x, d)[j] == diffs[j - 1]
      {
        InsertedValue(diffs, x, d, j);
      }
    }
  }

  /** The new difference is not the smallest of the range. */
  lemma SlotLarger(diffs: seq<nat>, lo: nat, hi: nat, t: nat, x: nat, d: nat)
    requires lo <= x <= hi <= |diffs| < END_TREE && lo < hi && Slot(diffs, lo, hi, t) && diffs[t] < d
    ensures Slot(InsertedAt(diffs, x, d), lo, hi + 1, Shifted(t, x))
  {
    var e := InsertedAt(diffs, x, d);
    forall j | lo <= j < hi + 1
      ensures e[j] == if j < x then diffs[j] else if j == x then d else diffs[j - 1]
    {
      InsertedValue(diffs, x, d, j);
    }
    hide InsertedAt;
    forall j | lo <= j < hi + 1 && j != Shifted(t, x)
      ensures e[Shifted(t, x)] < e[j]
    {
    }
  }

  /** The new difference is the smallest of the range. */
  lemma SlotSmaller(diffs: seq<nat>, lo: nat, hi: nat, x: nat, d: nat)
    requires lo <= x <= hi <= |diffs| && forall j :: lo <= j < hi ==> d < diffs[j]
    ensures Slot(InsertedAt(diffs, x, d), lo, hi + 1, x)
  {
    var e := InsertedAt(diffs, x, d);
    forall j | lo <= j < hi + 1
      ensures e[j] == if j < x then diffs[j] else if j == x then d else diffs[j - 1]
    {
      InsertedValue(diffs, x, d, j);
    }
  }

  /** A new smallest difference becomes the root; the old tree hangs below it on one side. */
  lemma NewRoot(diffs: seq<nat>, tree: seq<nat>, x: nat, d: nat)
    requires TreeOf(diffs, tree) && |diffs| + 1 < END_TREE && (x == 0 || x == |diffs|)
    requires forall j :: 0 <= j < |diffs| ==> d < diffs[j]
    ensures var s := Shifted(tree[0], x);
            TreeOf(InsertedAt(diffs, x, d), [x, if s < x then s else END_TREE, if s < x then END_TREE else s])
  {
    SlotSmaller(diffs, 0, |diffs|, x, d);
    if x == 0 {
      SlotRightOf(diffs, 0, |diffs|, tree[0], 0, d);
    } else {
      SlotLeftOf(diffs, 0, |diffs|, tree[0], x, d);
    }
    hide InsertedAt, IsArgMin;
  }

  /** The new difference in the range of one slot: the slot takes it if it is smaller, all positions
      behind it move. */
  lemma NewInSlot(diffs: seq<nat>, tree: seq<nat>, x: nat, d: nat, last: nat)
    requires TreeOf(diffs, tree) && diffs != [] && |diffs| + 1 < END_TREE && x <= |diffs| && diffs[tree[0]] < d
    requires (last == 1 && x <= tree[0]) || (last == 2 && tree[0] < x)
    requires tree[last] != END_TREE ==> diffs[tree[last]] != d
    ensures var s := [Shifted(tree[0], x), Shifted(tree[1], x), Shifted(tree[2], x)];
            TreeOf(InsertedAt(diffs, x, d), if tree[last] == END_TREE || d < diffs[tree[last]] then s[last := x] else s)
  {
    var m := tree[0];
    SlotLarger(diffs, 0, |diffs|, m, x, d);
    if last == 1 {
      SlotRightOf(diffs, m + 1, |diffs|, tree[2], x, d);
      SideSlot(diffs, 0, m, tree[1], x, d);
    } else {
      SlotLeftOf(diffs, 0, m, tree[1], x, d);
      SideSlot(diffs, m + 1, |diffs|, tree[2], x, d);
    }
    hide InsertedAt, IsArgMin;
  }

  lemma SideSlot(diffs: seq<nat>, lo: nat, hi: nat, t: nat, x: nat, d: nat)
    requires lo <= x <= hi <= |diffs| < END_TREE && Slot(diffs, lo, hi, t) && (t != END_TREE ==> t < |diffs| && diffs[t] != d)
    ensures Slot(InsertedAt(diffs, x, d), lo, hi + 1, if t == END_TREE || d < diffs[t] then x else Shifted(t, x))
  {
    if lo < hi && diffs[t] < d {
      SlotLarger(diffs, lo, hi, t, x, d);
    } else {
      SlotSmaller(diffs, lo, hi, x, d);
    }
  }

  // ------------------------------------------------------------------------------------
  // Removal
  // ------------------------------------------------------------------------------------

  lemma SlotBehindRemoved(diffs: seq<nat>, lo: nat, hi: nat, t: nat, e: nat)
    requires e < lo <= hi <= |diffs| < END_TREE && Slot(diffs, lo, hi, t)
    ensures Slot(RemovedAt(diffs, e), lo - 1, hi - 1, if t == END_TREE then END_TREE else t - 1)
  {
    forall j | lo - 1 <= j < hi - 1
      ensures RemovedAt(diffs, e)[j] == diffs[j + 1]
    {
    }
  }

  lemma SlotBeforeRemoved(diffs: seq<nat>, lo: nat, hi: nat, t: nat, e: nat)
    requires lo <= hi <= e < |diffs| && Slot(diffs, lo, hi, t)
    ensures Slot(RemovedAt(diffs, e), lo, hi, t)
  {
  }

  lemma SlotAroundRemoved(diffs: seq<nat>, lo: nat, hi: nat, t: nat, e: nat)
    requires lo <= e < hi <= |diffs| < END_TREE && Slot(diffs, lo, hi, t) && t != e
    ensures Slot(RemovedAt(diffs, e), lo, hi - 1, if t > e then t - 1 else t)
  {
    var f := RemovedAt(diffs, e);
    forall j | lo <= j < hi - 1
      ensures f[j] == diffs[if j < e then j else j + 1]
    {
    }
    hide RemovedAt;
  }

  /** The difference that goes when the key at `r` goes: at an end the last one, else the larger of the
      two at its sides. */
  function Gone(diffs: seq<nat>, r: nat): nat
    requires r <= |diffs| && |diffs| > 0
  {
    if r == 0 then 0 else if r == |diffs| then |diffs| - 1 else if diffs[r] < diffs[r - 1] then r - 1 else r
  }

  lemma WithoutIsRemoved(diffs: seq<nat>, r: nat)
    requires r <= |diffs| && |diffs| > 0
    ensures Gone(diffs, r) < |diffs| && DiffsWithout(diffs, r) == RemovedAt(diffs, Gone(diffs, r))
  {
    var e := Gone(diffs, r);
    var a, b := DiffsWithout(diffs, r), RemovedAt(diffs, e);
    if 0 < r < |diffs| {
      InnerRemoved(diffs, r);
      var m := diffs[r - 1 := if diffs[r] < diffs[r - 1] then diffs[r] else diffs[r - 1]];
      forall j | 0 <= j < |diffs| - 1
        ensures a[j] == b[j]
      {
        RemovedIndex(m, r, j);
        RemovedIndex(diffs, e, j);
      }
    }
  }

  /** The root after a removal, and whether the slots below it have to be looked for again. */
  function RootAfter(tree: seq<nat>, n: nat, r: nat): nat
    requires |tree| == TREE_SIZE
  {
    if r == 0 && tree[0] == 0 then (if tree[2] == END_TREE || tree[2] == 0 then END_TREE else tree[2] - 1)
    else if r == n && tree[0] + 1 == n then tree[1]
    else if tree[0] >= r && tree[0] > 0 then tree[0] - 1
    else tree[0]
  }

  predicate LostRoot(tree: seq<nat>, n: nat, r: nat)
    requires |tree| == TREE_SIZE
  {
    (r == 0 && tree[0] == 0) || (r == n && tree[0] + 1 == n)
  }

  lemma RootFollows(diffs: seq<nat>, tree: seq<nat>, r: nat)
    requires TreeOf(diffs, tree) && r <= |diffs| && |diffs| > 0
    ensures Slot(RemovedAt(diffs, Gone(diffs, r)), 0, |diffs| - 1, RootAfter(tree, |diffs|, r))
    ensures !LostRoot(tree, |diffs|, r) ==> tree[0] != Gone(diffs, r)
    ensures !LostRoot(tree, |diffs|, r) ==> RootAfter(tree, |diffs|, r) == if tree[0] > Gone(diffs, r) then tree[0] - 1 else tree[0]
  {
    var e, m := Gone(diffs, r), tree[0];
    if r == 0 && m == 0 {
      SlotBehindRemoved(diffs, 1, |diffs|, tree[2], 0);
    } else if r == |diffs| && m + 1 == |diffs| {
      SlotBeforeRemoved(diffs, 0, m, tree[1], m);
    } else {
      NotGone(diffs, m, r);
      SlotAroundRemoved(diffs, 0, |diffs|, m, e);
    }
  }

  lemma NotGone(diffs: seq<nat>, m: nat, r: nat)
    requires r <= |diffs| && IsArgMin(diffs, 0, |diffs|, m) && !(r == 0 && m == 0) && !(r == |diffs| && m + 1 == |diffs|)
    ensures m != Gone(diffs, r)
  {
  }

  /** The range of a slot below the root. */
  function RangeLo(k: nat, root: nat): nat
  {
    if k == 1 then 0 else root + 1
  }

  function RangeHi(k: nat, root: nat, n: nat): nat
  {
    if k == 1 then root else n
  }

  /** A slot that passes all the tests for having lost its minimum, its range or its place just moves
      along. */
  lemma SlotFollows(diffs: seq<nat>, tree: seq<nat>, r: nat, k: nat)
    requires TreeOf(diffs, tree) && r <= |diffs| && |diffs| > 1 && (k == 1 || k == 2)
    requires !LostRoot(tree, |diffs|, r) && tree[k] != END_TREE
    requires !(r == 0 && tree[k] == 0) && !(r == |diffs| && tree[k] + 1 == |diffs|) && tree[k] + 1 != r
    requires (if tree[k] >= r && tree[k] > 0 then tree[k] - 1 else tree[k]) != RootAfter(tree, |diffs|, r)
    ensures var root := RootAfter(tree, |diffs|, r);
            && root < |diffs| - 1
            && Slot(RemovedAt(diffs, Gone(diffs, r)), RangeLo(k, root), RangeHi(k, root, |diffs| - 1),
                    if tree[k] >= r && tree[k] > 0 then tree[k] - 1 else tree[k])
  {
    var e, m := Gone(diffs, r), tree[0];
    RootFollows(diffs, tree, r);
    SlotNotGone(diffs, tree, r, k);
    if k == 1 {
      if e < m { SlotAroundRemoved(diffs, 0, m, tree[1], e); } else { SlotBeforeRemoved(diffs, 0, m, tree[1], e); }
    } else {
      if e < m { SlotBehindRemoved(diffs, m + 1, |diffs|, tree[2], e); } else { SlotAroundRemoved(diffs, m + 1, |diffs|, tree[2], e); }
    }
  }

  lemma SlotNotGone(diffs: seq<nat>, tree: seq<nat>, r: nat, k: nat)
    requires TreeOf(diffs, tree) && r <= |diffs| && |diffs| > 1 && (k == 1 || k == 2)
    requires !LostRoot(tree, |diffs|, r) && tree[k] != END_TREE
    requires !(r == 0 && tree[k] == 0) && !(r == |diffs| && tree[k] + 1 == |diffs|) && tree[k] + 1 != r
    requires (if tree[k] >= r && tree[k] > 0 then tree[k] - 1 else tree[k]) != RootAfter(tree, |diffs|, r)
    ensures tree[k] != Gone(diffs, r) && (tree[k] > Gone(diffs, r) <==> tree[k] >= r) && tree[k] < |diffs| && tree[0] < |diffs|
    ensures tree[0] != Gone(diffs, r)
  {
    NotGone(diffs, tree[0], r);
  }

  // ------------------------------------------------------------------------------------
  // Splitting
  // ------------------------------------------------------------------------------------

  /** A minimum of a range is that of every part of the range that contains it, also in a slice. */
  lemma ArgMinPart(diffs: seq<nat>, lo: nat, hi: nat, t: nat, from: nat, end: nat, lo': nat, hi': nat)
    requires hi <= |diffs| && IsArgMin(diffs, lo, hi, t) && from <= end <= |diffs|
    requires from <= lo' <= t < hi' <= end && lo <= lo' && hi' <= hi
    ensures IsArgMin(diffs[from..end], lo' - from, hi' - from, t - from)
  {
    forall j | lo' - from <= j < hi' - from && j != t - from
      ensures diffs[from..end][t - from] < diffs[from..end][j]
    {
      assert diffs[t] < diffs[from + j];
    }
  }

  /** What is known of a tree under construction: a root that is the minimum, and children that are
      those of their ranges; the empty slots are still open. */
  ghost predicate Partial(diffs: seq<nat>, tree: seq<nat>)
  {
    && |tree| == TREE_SIZE && |diffs| < END_TREE
    && (if tree[0] == END_TREE then tree[1] == END_TREE && tree[2] == END_TREE else IsArgMin(diffs, 0, |diffs|, tree[0]))
    && (forall k :: 1 <= k <= 2 && tree[k] != END_TREE ==>
          tree[0] < |diffs| && Slot(diffs, RangeLo(k, tree[0]), RangeHi(k, tree[0], |diffs|), tree[k]))
  }

  /** The entry of the original tree for a half of the node: its place, if it lies in the half. */
  function InHalf(t: nat, from: nat, n: nat): nat
  {
    if t != END_TREE && from <= t < from + n then t - from else END_TREE
  }

  /** The tree of a half that the slots of the original tree give, one after the other. */
  function HalfTree(tree: seq<nat>, from: nat, n: nat): (r: seq<nat>)
    requires |tree| == TREE_SIZE
    ensures |r| == TREE_SIZE
  {
    var a, b, c := InHalf(tree[0], from, n), InHalf(tree[1], from, n), InHalf(tree[2], from, n);
    if a != END_TREE then [a, b, c] else if b != END_TREE then [b, END_TREE, c] else [c, END_TREE, END_TREE]
  }

  lemma PartialIs(diffs: seq<nat>, tree: seq<nat>)
    requires |tree| == TREE_SIZE && |diffs| < END_TREE && IsArgMin(diffs, 0, |diffs|, tree[0])
    requires tree[1] == END_TREE || IsArgMin(diffs, 0, tree[0], tree[1])
    requires tree[2] == END_TREE || IsArgMin(diffs, tree[0] + 1, |diffs|, tree[2])
    ensures Partial(diffs, tree)
  {
  }

  lemma ChildOf(diffs: seq<nat>, tree: seq<nat>, k: nat)
    requires TreeOf(diffs, tree) && diffs != [] && (k == 1 || k == 2)
    ensures IsArgMin(diffs, 0, |diffs|, tree[0]) && tree[0] < |diffs|
    ensures tree[k] != END_TREE ==> IsArgMin(diffs, RangeLo(k, tree[0]), RangeHi(k, tree[0], |diffs|), tree[k])
    ensures tree[k] != END_TREE ==> RangeLo(k, tree[0]) <= tree[k] < RangeHi(k, tree[0], |diffs|)
  {
  }

  /** The root lies in the half, and with it whatever children do. */
  lemma RootInHalf(diffs: seq<nat>, tree: seq<nat>, from: nat, n: nat)
    requires TreeOf(diffs, tree) && diffs != [] && from + n <= |diffs|
    requires from <= tree[0] < from + n && (from == 0 || from + n == |diffs|)
    ensures Partial(diffs[from..from + n], HalfTree(tree, from, n))
  {
    var m, h, half := tree[0], HalfTree(tree, from, n), diffs[from..from + n];
    ChildOf(diffs, tree, 1);
    ChildOf(diffs, tree, 2);
    RangeOfSlots(diffs, tree);
    hide IsArgMin, TreeOf, Partial;
    assert h == [m - from, InHalf(tree[1], from, n), InHalf(tree[2], from, n)];
    ArgMinPart(diffs, 0, |diffs|, m, from, from + n, from, from + n);
    if h[1] != END_TREE { ArgMinPart(diffs, 0, m, tree[1], from, from + n, from, m); }
    if h[2] != END_TREE { ArgMinPart(diffs, m + 1, |diffs|, tree[2], from, from + n, m + 1, from + n); }
    PartialIs(half, h);
  }

  /** Only one child lies in the half: it becomes the root. */
  lemma ChildInHalf(diffs: seq<nat>, tree: seq<nat>, from: nat, n: nat, k: nat)
    requires TreeOf(diffs, tree) && diffs != [] && from + n <= |diffs| && (k == 1 || k == 2)
    requires InHalf(tree[0], from, n) == InHalf(tree[3 - k], from, n) == END_TREE && InHalf(tree[k], from, n) != END_TREE
    requires from == 0 || from + n == |diffs|
    ensures Partial(diffs[from..from + n], HalfTree(tree, from, n))
  {
    var m := tree[0];
    ArgMinPart(diffs, if k == 1 then 0 else m + 1, if k == 1 then m else |diffs|, tree[k], from, from + n, from, from + n);
    hide IsArgMin, TreeOf;
    assert HalfTree(tree, from, n) == [tree[k] - from, END_TREE, END_TREE];
  }

  lemma HalfTreePartial(diffs: seq<nat>, tree: seq<nat>, from: nat, n: nat)
    requires TreeOf(diffs, tree) && diffs != [] && n > 0 && from + n <= |diffs|
    requires from == 0 || from + n == |diffs|
    ensures Partial(diffs[from..from + n], HalfTree(tree, from, n))
  {
    ChildrenApart(diffs, tree, from, n);
    RangeOfSlots(diffs, tree);
    if InHalf(tree[0], from, n) != END_TREE {
      RootInHalf(diffs, tree, from, n);
    } else if InHalf(tree[1], from, n) != END_TREE {
      ChildInHalf(diffs, tree, from, n, 1);
    } else if InHalf(tree[2], from, n) != END_TREE {
      ChildInHalf(diffs, tree, from, n, 2);
    } else {
      hide TreeOf, IsArgMin;
      assert HalfTree(tree, from, n) == [END_TREE, END_TREE, END_TREE];
    }
  }

  lemma RangeOfSlots(diffs: seq<nat>, tree: seq<nat>)
    requires TreeOf(diffs, tree)
    ensures |tree| == TREE_SIZE && |diffs| < END_TREE
  {
  }

  /** Without the root, both its children cannot be in one half. */
  lemma ChildrenApart(diffs: seq<nat>, tree: seq<nat>, from: nat, n: nat)
    requires TreeOf(diffs, tree) && diffs != [] && from + n <= |diffs|
    ensures !(InHalf(tree[0], from, n) == END_TREE && InHalf(tree[1], from, n) != END_TREE && InHalf(tree[2], from, n) != END_TREE)
  {
  }

  /** The first `i` slots of a tree. */
  function Cut(tree: seq<nat>, i: nat): (r: seq<nat>)
    requires |tree| == TREE_SIZE
    ensures |r| == TREE_SIZE
  {
    [if i > 0 then tree[0] else END_TREE, if i > 1 then tree[1] else END_TREE, if i > 2 then tree[2] else END_TREE]
  }

  /** In the order of positions the left child comes first, then the root, then the right child. */
  predicate InOrder(tree: seq<nat>)
    requires |tree| == TREE_SIZE
  {
    && tree[0] < END_TREE && (tree[1] == END_TREE || tree[1] < tree[0]) && (tree[2] == END_TREE || tree[0] < tree[2] < END_TREE)
  }

  lemma TreeInOrder(diffs: seq<nat>, tree: seq<nat>)
    requires TreeOf(diffs, tree) && diffs != []
    ensures |tree| == TREE_SIZE && InOrder(tree)
  {
  }

  /** Placing the next slot of the original tree: as the root if there is none yet, else below it. */
  lemma PlaceNext(tree: seq<nat>, from: nat, n: nat, i: nat)
    requires |tree| == TREE_SIZE && InOrder(tree) && i < TREE_SIZE
    ensures var h, h', v := HalfTree(Cut(tree, i), from, n), HalfTree(Cut(tree, i + 1), from, n), InHalf(tree[i], from, n);
            var k := if h[0] == END_TREE then 0 else if tree[i] < h[0] + from then 1 else 2;
            if v == END_TREE then h' == h else h[k] == END_TREE && h' == h[k := v]
  {
  }

  lemma CutAll(tree: seq<nat>)
    requires |tree| == TREE_SIZE
    ensures Cut(tree, TREE_SIZE) == tree
    ensures Cut(tree, 0) == [END_TREE, END_TREE, END_TREE]
  {
  }

  // ------------------------------------------------------------------------------------
  // Merging
  // ------------------------------------------------------------------------------------

  /** A position of the right node after the merge. */
  function MovedUp(t: nat, n: nat): nat
  {
    if t == END_TREE then END_TREE else t + n
  }

  lemma SlotInLeft(d1: seq<nat>, d: nat, d2: seq<nat>, lo: nat, hi: nat, t: nat)
    requires hi <= |d1| && Slot(d1, lo, hi, t)
    ensures Slot(d1 + [d] + d2, lo, hi, t)
  {
  }

  lemma SlotInRight(d1: seq<nat>, d: nat, d2: seq<nat>, lo: nat, hi: nat, t: nat)
    requires hi <= |d2| < END_TREE && Slot(d2, lo, hi, t)
    ensures Slot(d1 + [d] + d2, lo + |d1| + 1, hi + |d1| + 1, MovedUp(t, |d1| + 1))
  {
    if lo < hi {
      var ds, n := d1 + [d] + d2, |d1| + 1;
      forall j | lo + n <= j < hi + n
        ensures ds[j] == d2[j - n]
      {
      }
      assert ds[t + n] == d2[t];
    }
  }

  datatype Winner = Middle | Left | Right

  /** Which of a difference and the minima at its sides is the smallest. */
  function WinnerOf(diffs: seq<nat>, mid: nat, a: nat, b: nat): Winner
    requires mid < |diffs| && (a == END_TREE || a < |diffs|) && (b == END_TREE || b < |diffs|)
  {
    if (a == END_TREE || diffs[mid] < diffs[a]) && (b == END_TREE || diffs[mid] < diffs[b]) then Middle
    else if a != END_TREE && (b == END_TREE || diffs[a] < diffs[b]) then Left
    else Right
  }

  function Winning(w: Winner, mid: nat, a: nat, b: nat): nat
  {
    match w
    case Middle => mid
    case Left => a
    case Right => b
  }

  lemma SlotRange(diffs: seq<nat>, lo: nat, hi: nat, t: nat)
    requires hi <= |diffs| < END_TREE && Slot(diffs, lo, hi, t)
    ensures if lo < hi then lo <= t < hi && t != END_TREE else t == END_TREE
  {
  }

  /** The winner is the minimum of both sides and the middle. */
  lemma WinnerIsMin(keys: seq<Key>, diffs: seq<nat>, bits: nat, lo: nat, mid: nat, hi: nat, a: nat, b: nat)
    requires Adjacent(keys, diffs, bits) && lo <= mid < hi <= |diffs| < END_TREE
    requires Slot(diffs, lo, mid, a) && Slot(diffs, mid + 1, hi, b)
    ensures (a == END_TREE || a < |diffs|) && (b == END_TREE || b < |diffs|)
    ensures var w := Winning(WinnerOf(diffs, mid, a, b), mid, a, b); lo <= w < hi && Slot(diffs, lo, hi, w)
    ensures WinnerOf(diffs, mid, a, b).Left? ==> lo <= a < mid
    ensures WinnerOf(diffs, mid, a, b).Right? ==> mid < b < hi
  {
    SlotRange(diffs, lo, mid, a);
    SlotRange(diffs, mid + 1, hi, b);
    var w := Winning(WinnerOf(diffs, mid, a, b), mid, a, b);
    forall j | lo <= j < hi
      ensures diffs[w] <= diffs[j]
    {
    }
    MinIsUnique(keys, diffs, bits, lo, hi, w);
  }
}
