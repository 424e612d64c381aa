/** The array work on the tree of range minima: finding minima, removal, splitting, merging. */
module SeqTreeTables {
  import opened Keys
  import opened NodeArrays
  import opened DiffScan
  import opened DiffEdits
  import opened RangeMinima
  import opened TreeEdits

  /** The smallest difference of a range of positions, or the end marker if the range is empty. */
  method MinPosValueInRange(blindiKeys: array<nat>, start: nat, end: int, ghost keys: seq<Key>, ghost diffs: seq<nat>, ghost bits: nat)
    returns (minPos: nat)
    requires |diffs| <= blindiKeys.Length && blindiKeys[..|diffs|] == diffs && bits <= 248
    requires Adjacent(keys, diffs, bits) && start <= end + 1 <= |diffs|
    ensures Slot(diffs, start, end + 1, minPos)
  {
    AdjacentSorted(keys, diffs, bits);
    hide Adjacent;
    minPos := END_TREE;
    var minValue := END_TREE;
    var i: int := start;
    while i <= end
      invariant start <= i <= end + 1
      invariant i == start ==> minPos == END_TREE && minValue == END_TREE
      invariant i > start ==> start <= minPos < i && minValue == diffs[minPos]
      invariant forall j :: start <= j < i ==> minValue <= diffs[j]
      decreases end + 1 - i
    {
      if blindiKeys[i] < minValue {
        minValue := blindiKeys[i];
        minPos := i;
      }
      i := i + 1;
    }
    if start <= end {
      MinIsUnique(keys, diffs, bits, start, end + 1, minPos);
    }
  }

  /** The edges of the range of a slot: the root covers all differences, its two children what is in
      front of it and what is behind it. */
  function BringEdgesSeqFromPos(root: nat, validLen: nat, pos: nat): (edges: (nat, int))
  {
    if pos == 0 then (0, validLen - 2) else if pos == 1 then (0, root - 1) else (root + 1, validLen - 2)
  }

  method UpdateBlindiTreeFromSeq(blindiKeys: array<nat>, blindiTree: array<nat>, validLen: nat, pos: nat, ghost keys: seq<Key>, ghost diffs: seq<nat>, ghost bits: nat)
    requires |diffs| <= blindiKeys.Length && blindiKeys[..|diffs|] == diffs && bits <= 248 && blindiKeys != blindiTree
    requires Adjacent(keys, diffs, bits) && validLen == |diffs| + 1 && blindiTree.Length == TREE_SIZE && pos < TREE_SIZE
    requires pos > 0 ==> blindiTree[0] < |diffs|
    modifies blindiTree
    ensures blindiTree[..] == old(blindiTree[..])[pos := blindiTree[pos]]
    ensures pos == 0 ==> Slot(diffs, 0, |diffs|, blindiTree[0])
    ensures pos > 0 ==> Slot(diffs, RangeLo(pos, blindiTree[0]), RangeHi(pos, blindiTree[0], |diffs|), blindiTree[pos])
  {
    hide Adjacent, IsArgMin;
    var edges := BringEdgesSeqFromPos(blindiTree[0], validLen, pos);
    blindiTree[pos] := MinPosValueInRange(blindiKeys, edges.0, edges.1, keys, diffs, bits);
  }

  lemma TreeFromSlots(diffs: seq<nat>, tree: seq<nat>)
    requires |tree| == TREE_SIZE && |diffs| < END_TREE && diffs != [] && Slot(diffs, 0, |diffs|, tree[0])
    requires tree[0] < |diffs|
    requires Slot(diffs, RangeLo(1, tree[0]), RangeHi(1, tree[0], |diffs|), tree[1])
    requires Slot(diffs, RangeLo(2, tree[0]), RangeHi(2, tree[0], |diffs|), tree[2])
    ensures TreeOf(diffs, tree)
  {
  }

  // ------------------------------------------------------------------------------------
  // Removal
  // ------------------------------------------------------------------------------------

  /** Brings one slot below the root up to date: empty if its range is; looked for again if its minimum
      may be gone; else moved along. */
  method UpdateSlotAfterRemove(blindiKeys: array<nat>, blindiTree: array<nat>, validLen: nat, pos: nat, removePosition: nat, inRange: bool,
      ghost keys: seq<Key>, ghost diffs: seq<nat>, ghost bits: nat, ghost was: seq<nat>, ghost tree: seq<nat>)
    requires |diffs| <= blindiKeys.Length && blindiKeys[..|diffs|] == diffs && bits <= 248 && blindiKeys != blindiTree
    requires Adjacent(keys, diffs, bits) && |diffs| < END_TREE && validLen == |diffs| + 1 && blindiTree.Length == TREE_SIZE && (pos == 1 || pos == 2)
    requires |tree| == TREE_SIZE && TreeOf(was, tree) && |was| == |diffs| + 1 && removePosition <= |was| && diffs == RemovedAt(was, Gone(was, removePosition))
    requires Slot(diffs, 0, |diffs|, blindiTree[0]) && blindiTree[0] == RootAfter(tree, |was|, removePosition) && blindiTree[pos] == tree[pos]
    requires LostRoot(tree, |was|, removePosition) ==> inRange
    modifies blindiTree
    ensures blindiTree[..] == old(blindiTree[..])[pos := blindiTree[pos]]
    ensures if diffs == [] then blindiTree[pos] == END_TREE
            else blindiTree[0] < |diffs| && Slot(diffs, RangeLo(pos, blindiTree[0]), RangeHi(pos, blindiTree[0], |diffs|), blindiTree[pos])
  {
    hide Adjacent, IsArgMin, TreeOf, RootAfter, Gone, RemovedAt;
    RootInside(diffs, blindiTree[0]);
    var isFirst, isLast := removePosition == 0, removePosition == validLen;
    if blindiTree[0] == END_TREE {
      blindiTree[pos] := END_TREE;
    } else if blindiTree[0] == 0 && pos % 2 == 1 {
      blindiTree[pos] := END_TREE;
    } else if blindiTree[0] == validLen - 2 && pos % 2 == 0 {
      blindiTree[pos] := END_TREE;
    } else if inRange {
      UpdateBlindiTreeFromSeq(blindiKeys, blindiTree, validLen, pos, keys, diffs, bits);
    } else if blindiTree[pos] == END_TREE {
      StaysEmpty(was, tree, removePosition, pos);
    } else if (isFirst && blindiTree[pos] == 0) || (isLast && blindiTree[pos] == validLen - 1) {
      UpdateBlindiTreeFromSeq(blindiKeys, blindiTree, validLen, pos, keys, diffs, bits);
    } else if blindiTree[pos] == blindiTree[0] || blindiTree[pos] == removePosition - 1 {
      UpdateBlindiTreeFromSeq(blindiKeys, blindiTree, validLen, pos, keys, diffs, bits);
    } else {
      ghost var moved := if tree[pos] >= removePosition && tree[pos] > 0 then tree[pos] - 1 else tree[pos];
      if moved != blindiTree[0] {
        SlotFollows(was, tree, removePosition, pos);
      }
      if blindiTree[pos] >= removePosition {
        blindiTree[pos] := blindiTree[pos] - 1;
      }
      if blindiTree[pos] == blindiTree[0] {
        UpdateBlindiTreeFromSeq(blindiKeys, blindiTree, validLen, pos, keys, diffs, bits);
      }
    }
  }

  lemma RootInside(diffs: seq<nat>, t: nat)
    requires Slot(diffs, 0, |diffs|, t) && |diffs| < END_TREE
    ensures if diffs == [] then t == END_TREE else t < |diffs|
  {
  }

  lemma StaysEmpty(was: seq<nat>, tree: seq<nat>, r: nat, pos: nat)
    requires TreeOf(was, tree) && r <= |was| && |was| > 1 && (pos == 1 || pos == 2)
    ensures !LostRoot(tree, |was|, r) && tree[pos] == END_TREE ==>
      RootAfter(tree, |was|, r) == if pos == 1 then 0 else |was| - 2
  {
  }

  /** The part of removal that works on the tree: the root first, then the larger and the smaller slot. */
  method RemoveFromTree(blindiKeys: array<nat>, blindiTree: array<nat>, validLen: nat, removePosition: nat,
      ghost keys: seq<Key>, ghost diffs: seq<nat>, ghost bits: nat, ghost was: seq<nat>)
    requires |diffs| <= blindiKeys.Length && blindiKeys[..|diffs|] == diffs && bits <= 248 && blindiKeys != blindiTree
    requires Adjacent(keys, diffs, bits) && |diffs| + 1 < END_TREE && validLen == |diffs| + 1 && blindiTree.Length == TREE_SIZE
    requires TreeOf(was, blindiTree[..]) && |was| == |diffs| + 1 && removePosition <= |was| && diffs == RemovedAt(was, Gone(was, removePosition))
    requires diffs == [] ==> removePosition == 1
    modifies blindiTree
    ensures TreeOf(diffs, blindiTree[..])
  {
    hide Adjacent, IsArgMin, TreeOf, Gone, RemovedAt;
    ghost var tree := blindiTree[..];
    RootFollows(was, tree, removePosition);
    RootsPlaced(was, tree, removePosition);
    var isFirst, isLast := removePosition == 0, removePosition == validLen;
    var inRange := false;
    if isFirst && blindiTree[0] == 0 {
      blindiTree[0] := blindiTree[2] - 1;
      inRange := true;
    } else if isLast && blindiTree[0] == validLen - 1 {
      blindiTree[0] := blindiTree[1];
      inRange := true;
    } else if blindiTree[0] >= removePosition {
      blindiTree[0] := blindiTree[0] - 1;
    }
    UpdateSlotAfterRemove(blindiKeys, blindiTree, validLen, 2, removePosition, inRange, keys, diffs, bits, was, tree);
    ghost var half := blindiTree[..];
    UpdateSlotAfterRemove(blindiKeys, blindiTree, validLen, 1, removePosition, inRange, keys, diffs, bits, was, tree);
    Assembled(diffs, blindiTree[..]);
  }

  lemma RootsPlaced(was: seq<nat>, tree: seq<nat>, r: nat)
    requires |tree| == TREE_SIZE && TreeOf(was, tree) && |was| > 0 && r <= |was| && (|was| == 1 ==> r == 1)
    ensures tree[0] < |was| && (r == 0 && tree[0] == 0 ==> 0 < tree[2] < END_TREE)
  {
  }

  lemma Assembled(diffs: seq<nat>, tree: seq<nat>)
    requires |tree| == TREE_SIZE && |diffs| < END_TREE && Slot(diffs, 0, |diffs|, tree[0])
    requires if diffs == [] then tree[1] == END_TREE && tree[2] == END_TREE
             else tree[0] < |diffs| && Slot(diffs, RangeLo(1, tree[0]), RangeHi(1, tree[0], |diffs|), tree[1])
                  && Slot(diffs, RangeLo(2, tree[0]), RangeHi(2, tree[0], |diffs|), tree[2])
    ensures TreeOf(diffs, tree)
  {
    if diffs != [] { TreeFromSlots(diffs, tree); }
  }

  // ------------------------------------------------------------------------------------
  // Building
  // ------------------------------------------------------------------------------------

  /** The slots that are still empty below a root are looked for in the differences. */
  method FillFromSeq(blindiKeys: array<nat>, blindiTree: array<nat>, validLen: nat, ghost keys: seq<Key>, ghost diffs: seq<nat>, ghost bits: nat)
    requires |diffs| <= blindiKeys.Length && blindiKeys[..|diffs|] == diffs && bits <= 248 && blindiKeys != blindiTree
    requires Adjacent(keys, diffs, bits) && 0 < |diffs| < END_TREE && validLen == |diffs| + 1 && blindiTree.Length == TREE_SIZE
    requires Partial(diffs, blindiTree[..])
    modifies blindiTree
    ensures TreeOf(diffs, blindiTree[..])
  {
    hide Adjacent, IsArgMin, TreeOf;
    if blindiTree[0] == END_TREE {
      UpdateBlindiTreeFromSeq(blindiKeys, blindiTree, validLen, 0, keys, diffs, bits);
    }
    RootInside(diffs, blindiTree[0]);
    if blindiTree[1] == END_TREE && blindiTree[0] != END_TREE {
      UpdateBlindiTreeFromSeq(blindiKeys, blindiTree, validLen, 1, keys, diffs, bits);
    }
    if blindiTree[2] == END_TREE && blindiTree[0] != END_TREE {
      UpdateBlindiTreeFromSeq(blindiKeys, blindiTree, validLen, 2, keys, diffs, bits);
    }
    Assembled(diffs, blindiTree[..]);
  }

  /** The root is kept as the running minimum while the differences are compared; with a single key it
      stays at position 0, which is then no difference of the node. */
  method BuildTree(blindiKeys: array<nat>, blindiTree: array<nat>, validLen: nat, ghost keys: seq<Key>, ghost diffs: seq<nat>, ghost bits: nat)
    requires |diffs| <= blindiKeys.Length && blindiKeys[..|diffs|] == diffs && bits <= 248 && blindiKeys != blindiTree
    requires Adjacent(keys, diffs, bits) && |diffs| < END_TREE && validLen == |diffs| + 1 && blindiTree.Length == TREE_SIZE
    requires if diffs == [] then blindiTree[0] == 0 else Slot(diffs, 0, |diffs|, blindiTree[0])
    modifies blindiTree
    ensures TreeOf(diffs, blindiTree[..]) <==> validLen >= 2
    ensures blindiTree[0] == old(blindiTree[0])
  {
    if validLen == 1 {
      blindiTree[1], blindiTree[2] := END_TREE, END_TREE; // the ranges on both sides of the root are empty
      assert !TreeOf(diffs, blindiTree[..]);
      return;
    }
    hide Adjacent, IsArgMin, TreeOf;
    RootInside(diffs, blindiTree[0]);
    UpdateBlindiTreeFromSeq(blindiKeys, blindiTree, validLen, 1, keys, diffs, bits);
    UpdateBlindiTreeFromSeq(blindiKeys, blindiTree, validLen, 2, keys, diffs, bits);
    Assembled(diffs, blindiTree[..]);
  }

  // ------------------------------------------------------------------------------------
  // Splitting
  // ------------------------------------------------------------------------------------

  /** Places a position of the original tree in the tree of a half: as its root, or on the side of the
      root it lies on.  `orig` keeps the positions in the original node. */
  method UpdateBlindiTreeFromTree(target: array<nat>, orig: array<nat>, position: nat, halfNodeSize: nat)
    requires target.Length == orig.Length == TREE_SIZE && target != orig && halfNodeSize <= position
    requires target[0] != END_TREE ==> target[if position < orig[0] then 1 else 2] == END_TREE
    modifies target, orig
    ensures var k := if old(target[0]) == END_TREE then 0 else if position < old(orig[0]) then 1 else 2;
            target[..] == old(target[..])[k := position - halfNodeSize] && orig[..] == old(orig[..])[k := position]
  {
    if target[0] == END_TREE {
      target[0], orig[0] := position - halfNodeSize, position;
      return;
    }
    var curPos := if position < orig[0] then 1 else 2;
    target[curPos], orig[curPos] := position - halfNodeSize, position;
  }

  /** The root of a half, in the numbering of the whole node. */
  ghost predicate Origin(target: array<nat>, orig: array<nat>, from: nat)
    requires target.Length == orig.Length == TREE_SIZE
    reads target, orig
  {
    target[0] != END_TREE ==> orig[0] == target[0] + from
  }

  /** Hands one slot down to the half that its position lies in, unless it is the middle one. */
  method HandDown(position: nat, target: array<nat>, orig: array<nat>, from: nat, n: nat, ghost t: seq<nat>, ghost i: nat)
    requires target.Length == orig.Length == TREE_SIZE && target != orig && |t| == TREE_SIZE && i < TREE_SIZE && InOrder(t)
    requires position == t[i] && InHalf(position, from, n) != END_TREE
    requires target[..] == HalfTree(Cut(t, i), from, n) && Origin(target, orig, from)
    modifies target, orig
    ensures target[..] == HalfTree(Cut(t, i + 1), from, n) && Origin(target, orig, from)
  {
    hide HalfTree, Cut, InOrder;
    PlaceNext(t, from, n, i);
    UpdateBlindiTreeFromTree(target, orig, position, from);
  }

  lemma Elsewhere(t: seq<nat>, from: nat, n: nat, i: nat)
    requires |t| == TREE_SIZE && i < TREE_SIZE && InOrder(t) && InHalf(t[i], from, n) == END_TREE
    ensures HalfTree(Cut(t, i + 1), from, n) == HalfTree(Cut(t, i), from, n)
  {
  }

  method SplitSlot(position: nat, small: array<nat>, smallOrig: array<nat>, large: array<nat>, largeOrig: array<nat>, halfNodeSize: nat, ghost t: seq<nat>, ghost i: nat)
    requires small.Length == smallOrig.Length == large.Length == largeOrig.Length == TREE_SIZE
    requires small != smallOrig && small != large && small != largeOrig && smallOrig != large && smallOrig != largeOrig && large != largeOrig
    requires |t| == TREE_SIZE && i < TREE_SIZE && InOrder(t) && position == t[i] && 2 <= halfNodeSize < 128
    requires position == END_TREE || position < 2 * halfNodeSize - 1
    requires small[..] == HalfTree(Cut(t, i), 0, halfNodeSize - 1) && Origin(small, smallOrig, 0)
    requires large[..] == HalfTree(Cut(t, i), halfNodeSize, halfNodeSize - 1) && Origin(large, largeOrig, halfNodeSize)
    modifies small, smallOrig, large, largeOrig
    ensures small[..] == HalfTree(Cut(t, i + 1), 0, halfNodeSize - 1) && Origin(small, smallOrig, 0)
    ensures large[..] == HalfTree(Cut(t, i + 1), halfNodeSize, halfNodeSize - 1) && Origin(large, largeOrig, halfNodeSize)
  {
    hide HalfTree, Cut, InOrder;
    if position <= halfNodeSize - 2 {
      Elsewhere(t, halfNodeSize, halfNodeSize - 1, i);
      HandDown(position, small, smallOrig, 0, halfNodeSize - 1, t, i);
    } else if position >= halfNodeSize && position != END_TREE {
      Elsewhere(t, 0, halfNodeSize - 1, i);
      HandDown(position, large, largeOrig, halfNodeSize, halfNodeSize - 1, t, i);
    } else {
      Elsewhere(t, 0, halfNodeSize - 1, i);
      Elsewhere(t, halfNodeSize, halfNodeSize - 1, i);
    }
  }

  /** Hands the slots of the tree of a full node down to its halves, level by level. */
  method SplitTree(tree: array<nat>, small: array<nat>, large: array<nat>, halfNodeSize: nat, ghost diffs: seq<nat>)
    requires tree.Length == small.Length == large.Length == TREE_SIZE && tree != small && tree != large && small != large
    requires TreeOf(diffs, tree[..]) && 2 <= halfNodeSize && |diffs| == 2 * halfNodeSize - 1
    modifies small, large
    ensures small[..] == HalfTree(tree[..], 0, halfNodeSize - 1)
    ensures large[..] == HalfTree(tree[..], halfNodeSize, halfNodeSize - 1)
  {
    TreeInOrder(diffs, tree[..]);
    RangeOfSlots(diffs, tree[..]);
    SlotsInside(diffs, tree[..]);
    ghost var t, half := tree[..], halfNodeSize;
    EmptyHalf(t, 0, half - 1);
    EmptyHalf(t, half, half - 1);
    CutAll(t);
    hide TreeOf, HalfTree, Cut, InOrder;
    var smallOrig, largeOrig := new nat[TREE_SIZE], new nat[TREE_SIZE];
    Clear(small);
    Clear(large);
    var i := 0;
    while i < TREE_SIZE
      invariant 0 <= i <= TREE_SIZE && tree[..] == t
      invariant small[..] == HalfTree(Cut(t, i), 0, half - 1) && Origin(small, smallOrig, 0)
      invariant large[..] == HalfTree(Cut(t, i), half, half - 1) && Origin(large, largeOrig, half)
    {
      assert tree[i] == t[i];
      SplitSlot(tree[i], small, smallOrig, large, largeOrig, halfNodeSize, t, i);
      i := i + 1;
    }
  }

  method Clear(tree: array<nat>)
    requires tree.Length == TREE_SIZE
    modifies tree
    ensures tree[..] == [END_TREE, END_TREE, END_TREE]
  {
    var j := 0;
    while j < TREE_SIZE
      invariant 0 <= j <= TREE_SIZE
      invariant forall k :: 0 <= k < j ==> tree[k] == END_TREE
    {
      tree[j] := END_TREE;
      j := j + 1;
    }
  }

  lemma EmptyHalf(tree: seq<nat>, from: nat, n: nat)
    requires |tree| == TREE_SIZE
    ensures HalfTree(Cut(tree, 0), from, n) == [END_TREE, END_TREE, END_TREE]
  {
  }

  lemma SlotsInside(diffs: seq<nat>, tree: seq<nat>)
    requires TreeOf(diffs, tree)
    ensures forall k :: 0 <= k < TREE_SIZE ==> tree[k] == END_TREE || tree[k] < |diffs|
  {
  }

  // ------------------------------------------------------------------------------------
  // Merging
  // ------------------------------------------------------------------------------------

  /** Takes a slot of a source tree over, if there is a level left for it. */
  method PushDownBlindiTree(blindiTree: array<nat>, source: seq<nat>, sourcePos: nat, destPos: nat, curLevel: nat, offset: nat)
    requires blindiTree.Length == TREE_SIZE && |source| == TREE_SIZE
    requires curLevel < TREE_LEVELS ==> curLevel == 1 && sourcePos < TREE_SIZE && destPos < TREE_SIZE
    modifies blindiTree
    ensures blindiTree[..] == if curLevel < TREE_LEVELS then old(blindiTree[..])[destPos := MovedUp(source[sourcePos], offset)] else old(blindiTree[..])
  {
    var l := curLevel;
    if l < TREE_LEVELS {
      blindiTree[destPos] := if source[sourcePos] == END_TREE then END_TREE else source[sourcePos] + offset;
    }
  }

  /** Below a root the merge goes on in the range of one child: the rest of the left tree, the middle
      and the rest of the right tree. */
  ghost predicate Merging(diffs: seq<nat>, n: nat, l: nat, tree: seq<nat>, left: seq<nat>, right: seq<nat>, next: nat, a: nat, b: nat)
    requires |tree| == |left| == |right| == TREE_SIZE && 0 < n <= |diffs|
  {
    if l == 0 then
      next == a == b == 0 && Slot(diffs, 0, n - 1, left[0]) && Slot(diffs, n, |diffs|, MovedUp(right[0], n))
    else
      && (next == 1 || next == 2) && a < TREE_SIZE && b < TREE_SIZE && tree[0] < |diffs| && Slot(diffs, 0, |diffs|, tree[0])
      && Slot(diffs, RangeLo(3 - next, tree[0]), RangeHi(3 - next, tree[0], |diffs|), tree[3 - next])
      && RangeLo(next, tree[0]) <= n - 1 < RangeHi(next, tree[0], |diffs|)
      && Slot(diffs, RangeLo(next, tree[0]), n - 1, left[a])
      && Slot(diffs, n, RangeHi(next, tree[0], |diffs|), MovedUp(right[b], n))
  }

  lemma MergeStarts(d1: seq<nat>, d: nat, d2: seq<nat>, left: seq<nat>, right: seq<nat>)
    requires TreeOf(d1, left) && TreeOf(d2, right)
    ensures Merging(d1 + [d] + d2, |d1| + 1, 0, left, left, right, 0, 0, 0)
  {
    SlotInLeft(d1, d, d2, 0, |d1|, left[0]);
    SlotInRight(d1, d, d2, 0, |d2|, right[0]);
    hide IsArgMin;
  }

  /** The range a step of the merge works on, with the middle in it. */
  function MergeLo(l: nat, next: nat, root: nat): nat
  {
    if l == 0 then 0 else RangeLo(next, root)
  }

  function MergeHi(l: nat, next: nat, root: nat, n: nat): nat
  {
    if l == 0 then n else RangeHi(next, root, n)
  }

  lemma MergingSlots(keys: seq<Key>, diffs: seq<nat>, bits: nat, n: nat, l: nat, tree: seq<nat>, left: seq<nat>, right: seq<nat>, next: nat, a: nat, b: nat)
    requires |tree| == |left| == |right| == TREE_SIZE && 0 < n <= |diffs| < END_TREE && Adjacent(keys, diffs, bits)
    requires Merging(diffs, n, l, tree, left, right, next, a, b)
    ensures next < TREE_SIZE && a < TREE_SIZE && b < TREE_SIZE && (l == 0 ==> next == a == b == 0)
    ensures var x, y, lo, hi := left[a], MovedUp(right[b], n), MergeLo(l, next, tree[0]), MergeHi(l, next, tree[0], |diffs|);
            && lo <= n - 1 < hi <= |diffs| && (x == END_TREE || x < |diffs|) && (y == END_TREE || y < |diffs|)
            && Slot(diffs, lo, n - 1, x) && Slot(diffs, n, hi, y)
            && Slot(diffs, lo, hi, Winning(WinnerOf(diffs, n - 1, x, y), n - 1, x, y))
            && (WinnerOf(diffs, n - 1, x, y).Left? ==> lo <= x < n - 1)
            && (WinnerOf(diffs, n - 1, x, y).Right? ==> n - 1 < y < hi)
  {
    hide Adjacent, IsArgMin;
    WinnerIsMin(keys, diffs, bits, MergeLo(l, next, tree[0]), n - 1, MergeHi(l, next, tree[0], |diffs|), left[a], MovedUp(right[b], n));
  }

  /** The middle becomes the root: the two old roots go below it. */
  lemma MiddleOnTop(diffs: seq<nat>, n: nat, x: nat, y: nat)
    requires 0 < n <= |diffs| < END_TREE
    requires Slot(diffs, 0, n - 1, x) && Slot(diffs, n, |diffs|, y) && Slot(diffs, 0, |diffs|, n - 1)
    ensures TreeOf(diffs, [n - 1, x, y])
  {
    hide IsArgMin;
  }

  /** The left root stays the root, with its left child; the merge goes on behind it. */
  lemma LeftOnTop(d1: seq<nat>, d: nat, d2: seq<nat>, left: seq<nat>, right: seq<nat>, root: nat)
    requires TreeOf(d1, left) && TreeOf(d2, right) && d1 != [] && |d1| + |d2| + 1 < END_TREE
    requires var diffs := d1 + [d] + d2; Slot(diffs, 0, |diffs|, left[0])
    ensures Merging(d1 + [d] + d2, |d1| + 1, 1, [left[0], left[1], root], left, right, 2, 2, 0)
  {
    SlotInLeft(d1, d, d2, 0, left[0], left[1]);
    SlotInLeft(d1, d, d2, left[0] + 1, |d1|, left[2]);
    SlotInRight(d1, d, d2, 0, |d2|, right[0]);
    hide IsArgMin;
  }

  lemma RightOnTop(d1: seq<nat>, d: nat, d2: seq<nat>, left: seq<nat>, right: seq<nat>, root: nat)
    requires TreeOf(d1, left) && TreeOf(d2, right) && d2 != [] && |d1| + |d2| + 1 < END_TREE
    requires var diffs := d1 + [d] + d2; Slot(diffs, 0, |diffs|, MovedUp(right[0], |d1| + 1))
    ensures var n := |d1| + 1; Merging(d1 + [d] + d2, n, 1, [MovedUp(right[0], n), root, MovedUp(right[2], n)], left, right, 1, 0, 1)
  {
    var n := |d1| + 1;
    SlotInLeft(d1, d, d2, 0, |d1|, left[0]);
    SlotInRight(d1, d, d2, 0, right[0], right[1]);
    SlotInRight(d1, d, d2, right[0] + 1, |d2|, right[2]);
    hide IsArgMin;
  }

  /** On the last level the winner completes the tree. */
  lemma LastLevel(diffs: seq<nat>, n: nat, tree: seq<nat>, left: seq<nat>, right: seq<nat>, next: nat, a: nat, b: nat, w: nat)
    requires |tree| == |left| == |right| == TREE_SIZE && 0 < n <= |diffs| < END_TREE && Merging(diffs, n, 1, tree, left, right, next, a, b)
    requires Slot(diffs, RangeLo(next, tree[0]), RangeHi(next, tree[0], |diffs|), w)
    ensures TreeOf(diffs, tree[next := w])
  {
    hide IsArgMin;
  }

  /** Which comes out on top: the middle difference, or the minimum of what is left on one side. */
  method CompareSlots(blindiKeys: array<nat>, largeKeys: array<nat>, diffPos: nat, a: nat, b: nat, ghost d1: seq<nat>, ghost d2: seq<nat>) returns (w: Winner)
    requires |d1| <= blindiKeys.Length && blindiKeys[..|d1|] == d1 && |d2| <= largeKeys.Length && largeKeys[..|d2|] == d2
    requires |d1| + |d2| + 1 < END_TREE && (a == END_TREE || a < |d1|) && (b == END_TREE || b < |d2|)
    ensures w == WinnerOf(d1 + [diffPos] + d2, |d1|, a, MovedUp(b, |d1| + 1))
  {
    ghost var diffs := d1 + [diffPos] + d2;
    if a != END_TREE { assert blindiKeys[a] == d1[a] == diffs[a]; }
    if b != END_TREE { assert largeKeys[b] == d2[b] == diffs[b + |d1| + 1]; }
    assert diffs[|d1|] == diffPos;
    if (a == END_TREE || diffPos < blindiKeys[a]) && (b == END_TREE || diffPos < largeKeys[b]) {
      return Middle;
    }
    if a != END_TREE && (b == END_TREE || blindiKeys[a] < largeKeys[b]) {
      return Left;
    }
    return Right;
  }

  /** The second level of the merge, in the range of the child `nextPos` of the new root. */
  method MergeBelow(blindiKeys: array<nat>, blindiTree: array<nat>, largeKeys: array<nat>, left: seq<nat>, right: seq<nat>, smallNodeLen: nat, diffPos: nat,
      nextPos: nat, smallPos: nat, largePos: nat, ghost keys: seq<Key>, ghost d1: seq<nat>, ghost d2: seq<nat>, ghost bits: nat)
    requires blindiTree.Length == |left| == |right| == TREE_SIZE && blindiTree != blindiKeys && blindiTree != largeKeys
    requires smallNodeLen == |d1| + 1 && |d1| <= blindiKeys.Length && blindiKeys[..|d1|] == d1 && |d2| <= largeKeys.Length && largeKeys[..|d2|] == d2
    requires |d1| + |d2| + 1 < END_TREE && Adjacent(keys, d1 + [diffPos] + d2, bits)
    requires forall k :: 0 <= k < TREE_SIZE ==> left[k] == END_TREE || left[k] < |d1|
    requires forall k :: 0 <= k < TREE_SIZE ==> right[k] == END_TREE || right[k] < |d2|
    requires Merging(d1 + [diffPos] + d2, smallNodeLen, 1, blindiTree[..], left, right, nextPos, smallPos, largePos)
    modifies blindiTree
    ensures TreeOf(d1 + [diffPos] + d2, blindiTree[..])
  {
    hide Adjacent, IsArgMin, TreeOf, Merging, WinnerOf, Slot;
    ghost var diffs, tree := d1 + [diffPos] + d2, blindiTree[..];
    MergingSlots(keys, diffs, bits, smallNodeLen, 1, tree, left, right, nextPos, smallPos, largePos);
    var w := CompareSlots(blindiKeys, largeKeys, diffPos, left[smallPos], right[largePos], d1, d2);
    match w {
      case Middle => blindiTree[nextPos] := smallNodeLen - 1;
      case Left => blindiTree[nextPos] := left[smallPos];
      case Right => blindiTree[nextPos] := right[largePos] + smallNodeLen;
    }
    LastLevel(diffs, smallNodeLen, tree, left, right, nextPos, smallPos, largePos, Winning(w, smallNodeLen - 1, left[smallPos], MovedUp(right[largePos], smallNodeLen)));
    assert blindiTree[..] == tree[nextPos := blindiTree[nextPos]];
  }

  /** Merges the tree of a node whose keys all follow into this one: on every level the smallest of the
      middle difference and what is left of both trees goes on top. */
  method MergeTrees(blindiKeys: array<nat>, blindiTree: array<nat>, largeKeys: array<nat>, largeTree: array<nat>, smallNodeLen: nat, diffPos: nat,
      ghost keys: seq<Key>, ghost d1: seq<nat>, ghost d2: seq<nat>, ghost bits: nat)
    requires blindiTree.Length == largeTree.Length == TREE_SIZE && blindiTree != largeTree && blindiTree != blindiKeys && blindiTree != largeKeys
    requires smallNodeLen == |d1| + 1 && |d1| <= blindiKeys.Length && blindiKeys[..|d1|] == d1 && |d2| <= largeKeys.Length && largeKeys[..|d2|] == d2
    requires |d1| + |d2| + 1 < END_TREE && Adjacent(keys, d1 + [diffPos] + d2, bits)
    requires TreeOf(d1, blindiTree[..]) && TreeOf(d2, largeTree[..])
    modifies blindiTree
    ensures TreeOf(d1 + [diffPos] + d2, blindiTree[..])
  {
    ghost var diffs, n := d1 + [diffPos] + d2, smallNodeLen;
    var left, right := blindiTree[..], largeTree[..];
    MergeStarts(d1, diffPos, d2, left, right);
    SlotsInside(d1, left);
    SlotsInside(d2, right);
    hide Adjacent, IsArgMin, TreeOf, Merging, WinnerOf, Slot;
    MergingSlots(keys, diffs, bits, n, 0, left, left, right, 0, 0, 0);
    var w := CompareSlots(blindiKeys, largeKeys, diffPos, left[0], right[0], d1, d2);
    var nextPos: nat, smallPos: nat, largePos: nat := 0, 0, 0;
    match w {
      case Middle =>
        blindiTree[0] := smallNodeLen - 1;
        PushDownBlindiTree(blindiTree, left, 0, 1, 1, 0);
        PushDownBlindiTree(blindiTree, right, 0, 2, 1, smallNodeLen);
        MiddleOnTop(diffs, n, left[0], MovedUp(right[0], n));
        assert blindiTree[..] == [n - 1, left[0], MovedUp(right[0], n)];
        return;
      case Left =>
        blindiTree[0] := left[0];
        nextPos, smallPos := 2, 2;
        PushDownBlindiTree(blindiTree, left, smallPos - 1, nextPos - 1, 1, 0);
        LeftOnTop(d1, diffPos, d2, left, right, blindiTree[2]);
        assert blindiTree[..] == [left[0], left[1], blindiTree[2]];
      case Right =>
        blindiTree[0] := right[0] + smallNodeLen;
        nextPos, largePos := 1, 1;
        PushDownBlindiTree(blindiTree, right, largePos + 1, nextPos + 1, 1, smallNodeLen);
        RightOnTop(d1, diffPos, d2, left, right, blindiTree[1]);
        assert blindiTree[..] == [MovedUp(right[0], n), blindiTree[1], MovedUp(right[2], n)];
    }
    MergeBelow(blindiKeys, blindiTree, largeKeys, left, right, smallNodeLen, diffPos, nextPos, smallPos, largePos, keys, d1, d2, bits);
  }
}
