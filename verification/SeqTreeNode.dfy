/** The flat node with a small tree of range minima on top, with two tree levels. */
module SeqTreeNode {
  import opened Keys
  import opened NodeArrays
  import opened DiffScan
  import opened DiffEdits
  import opened RangeMinima
  import opened TreeEdits
  import opened SeqTreeTables

  const MAX_HIGH_MISS: nat := 253

  /** What the search records for the second stage and for insertion: the bounds of the part to scan,
      the last and the previous slot of the tree, the depth reached, and whether the result was found
      in the tree. */
  datatype Traverse = Traverse(start: nat, end: int, last: nat, previous: nat, inTree: bool, len: nat)

  class SeqTreeBlindiNode {
    const slots: nat      // NUM_SLOTS
    const keyBits: nat
    const keyPtr: array<Key>
    const blindiKeys: array<nat>
    const blindiTree: array<nat>
    var validLen: nat

    ghost predicate Shaped()
      reads this
    {
      && validLen <= slots < 254 && slots % 2 == 0 && keyBits <= 248
      && 0 < slots && keyPtr.Length == slots && blindiKeys.Length == slots - 1 && blindiTree.Length == TREE_SIZE
      && blindiKeys != blindiTree
    }

    /** The flat part is exact. */
    ghost predicate Flat()
      reads this, keyPtr, blindiKeys
    {
      Shaped() && validLen > 0 && Adjacent(keyPtr[..validLen], blindiKeys[..validLen - 1], keyBits)
    }

    ghost predicate Valid()
      reads this, keyPtr, blindiKeys, blindiTree
    {
      Shaped() && (validLen > 0 ==> Flat() && TreeOf(blindiKeys[..validLen - 1], blindiTree[..]))
    }

    ghost function Stored(): (ks: seq<Key>)
      requires Shaped()
      reads this, keyPtr
    {
      keyPtr[..validLen]
    }

    ghost function Diffs(): (ds: seq<nat>)
      requires Shaped() && validLen > 0
      reads this, blindiKeys
    {
      blindiKeys[..validLen - 1]
    }

    lemma DiffsBelow()
      requires Flat()
      ensures Below(Diffs(), keyBits) && Uniform(Stored(), keyBits) && StrictlySorted(Stored(), keyBits)
    {
      AdjacentSorted(Stored(), Diffs(), keyBits);
    }

    // ----------------------------------------------------------------------------------
    // Search
    // ----------------------------------------------------------------------------------

    /** Goes down the tree by the bits of the query, and scans what is left between two slots.  The
        position found is that of the plain scan of the whole node. */
    method SearchFirstStage(q: Key) returns (pos: nat, t: Traverse)
      requires Valid() && validLen > 0 && |q| == keyBits
      ensures Below(Diffs(), |q|) && pos == FirstStage(Diffs(), q)
      ensures Walked(Diffs(), blindiTree[..], pos, t)
    {
      hide Adjacent, FirstStage, Scan, IsArgMin, Walked;
      DiffsBelow();
      ghost var diffs, tree := Diffs(), blindiTree[..];
      t := Traverse(0, validLen - 2, 0, 0, false, 0);
      pos := 0;
      if validLen == 1 || blindiTree[0] == END_TREE {
        NothingToWalk(diffs, tree, q, t);
        return;
      }
      WalkStarts(diffs, tree, q);
      var start: nat, end, isStart: nat, isEnd: nat := 0, validLen - 2, 0, 0;
      var treePosP1: nat := 1;
      var isLastLarge: nat := 0;
      var i := 0;
      while i < TREE_LEVELS
        invariant 0 <= i <= TREE_LEVELS && t.len == i && t.previous == 0 && !t.inTree
        invariant i < TREE_LEVELS ==> treePosP1 - 1 < TREE_SIZE && (i == 0 ==> treePosP1 == 1 && t.last == 0) && (i == 1 ==> treePosP1 != 1 && t.last == 0)
        invariant Walking(diffs, tree, q, i, treePosP1, t.last, start, end, isStart, isEnd, isLastLarge, pos)
        decreases TREE_LEVELS - i
      {
        t := t.(previous := t.last, last := treePosP1 - 1, len := t.len + 1);
        if blindiTree[treePosP1 - 1] == END_TREE {
          WalkEnds(diffs, tree, q, i, treePosP1, start, end, isStart, isEnd, isLastLarge, pos, t);
          pos := blindiTree[t.previous] + isLastLarge;
          return;
        }
        WalkStep(diffs, tree, q, i, treePosP1, start, end, isStart, isEnd, isLastLarge, pos);
        var treeKey := blindiKeys[blindiTree[treePosP1 - 1]];
        if q[treeKey] {
          pos := blindiTree[treePosP1 - 1] + 1;
          start, isStart := blindiTree[treePosP1 - 1], 1;
          treePosP1 := (treePosP1 + 1) * 2 - 1;
          isLastLarge := 1;
        } else {
          end, isEnd := blindiTree[treePosP1 - 1], 1;
          treePosP1 := treePosP1 * 2;
          isLastLarge := 0;
        }
        i := i + 1;
      }
      t := t.(start := start, end := end);
      WalkDone(diffs, tree, q, treePosP1, start, end, isStart, isEnd, isLastLarge, pos, t);
      pos := ScanPart(q, start + isStart, end - isEnd + 1, pos);
    }

    /** The sequential part of the first stage, over the given positions. */
    method ScanPart(q: Key, lo: nat, hi: nat, from: nat) returns (pos: nat)
      requires Flat() && |q| == keyBits && lo <= hi <= validLen - 1 && Below(Diffs(), |q|)
      ensures pos == Scan(Diffs(), q, lo, hi, from, NoMiss).0
    {
      hide Adjacent;
      ghost var diffs := Diffs();
      ghost var miss := NoMiss;
      pos := from;
      var highMiss := MAX_HIGH_MISS;
      var i := lo;
      while i < hi
        invariant lo <= i <= hi
        invariant (pos, miss) == Scan(diffs, q, lo, i, from, NoMiss)
        invariant highMiss == if miss.NoMiss? then MAX_HIGH_MISS else miss.bit
      {
        ScanLast(diffs, q, lo, i, from, NoMiss);
        var idx := blindiKeys[i];
        ghost var s := Step(diffs[i], q, i, pos, miss);
        if idx <= highMiss {
          if q[idx] {
            highMiss := MAX_HIGH_MISS;
            pos := i + 1;
          } else {
            highMiss := idx;
          }
        }
        miss := s.1;
        i := i + 1;
      }
    }

    /** Both scans of the second stage, bounded by what the walk through the tree has found. */
    method SearchSecondStageSeq(firstStagePos: nat, diffPos: nat, largeSmall: bool, t: Traverse) returns (pos: nat, smallerThanNode: bool)
      requires Valid() && validLen > 0 && Diffs() != [] && Walked(Diffs(), blindiTree[..], firstStagePos, t)
      requires blindiTree[t.last] != END_TREE && Diffs()[blindiTree[0]] < diffPos && Diffs()[blindiTree[t.last]] < diffPos
      ensures smallerThanNode <==> Rank(Diffs(), firstStagePos, diffPos, largeSmall) == 0
      ensures pos == if smallerThanNode then 0 else Rank(Diffs(), firstStagePos, diffPos, largeSmall) - 1
    {
      ghost var diffs, tree := Diffs(), blindiTree[..];
      BoundsFound(diffs, tree, firstStagePos, diffPos, t);
      hide Adjacent, TreeOf, Walked, RightEnd, LeftEnd;
      if largeSmall {
        var i := firstStagePos;
        while i <= t.end
          invariant firstStagePos <= i <= t.end + 1
          invariant forall j :: firstStagePos <= j < i ==> diffPos <= diffs[j]
          decreases t.end - i
        {
          if blindiKeys[i] < diffPos {
            RightEndIs(diffs, firstStagePos, diffPos, i);
            return i, false;
          }
          i := i + 1;
        }
        RightEndIs(diffs, firstStagePos, diffPos, t.end + 1);
        return t.end + 1, false;
      }
      if firstStagePos == 0 {
        return 0, true;
      }
      var i := firstStagePos - 1;
      while i >= t.start
        invariant t.start - 1 <= i < firstStagePos
        invariant forall j :: i < j < firstStagePos ==> diffPos <= diffs[j]
        decreases i
      {
        if blindiKeys[i] < diffPos {
          LeftEndIs(diffs, firstStagePos, diffPos, i + 1);
          return i, false;
        }
        i := i - 1;
      }
      LeftEndIs(diffs, firstStagePos, diffPos, 0);
      return t.start, true;
    }

    /** Goes up while it comes from the large side; the first slot reached from the small side is the
        last position of the subtree, or else the last key of the node is. */
    method BringLargestInSubtree(t: Traverse) returns (pos: nat)
      requires Shaped() && validLen > 0 && t.len == 2 && t.previous == 0 && (t.last == 1 || t.last == 2)
      ensures pos == if t.last == 1 then blindiTree[0] else validLen - 1
    {
      var top, bottom := t.previous, t.last;
      var i := t.len;
      while i > 1
        invariant 1 <= i <= 2 && top < TREE_SIZE && (i == 2 ==> top == 0 && bottom == t.last)
        invariant i == 1 ==> t.last == 2
      {
        if (bottom + 1) % 2 == 0 {
          return blindiTree[top];
        }
        bottom := top;
        var temp := (top + 1) / 2;
        top := if temp > 0 then temp - 1 else 0;
        i := i - 1;
      }
      return validLen - 1;
    }

    method BringSmallestInSubtree(t: Traverse) returns (pos: nat, smallerThanNode: bool)
      requires Shaped() && t.len == 2 && t.previous == 0 && (t.last == 1 || t.last == 2)
      ensures (pos, smallerThanNode) == if t.last == 2 then (blindiTree[0], false) else (0, true)
    {
      var top, bottom := t.previous, t.last;
      var i := t.len;
      while i > 1
        invariant 1 <= i <= 2 && top < TREE_SIZE && (i == 2 ==> top == 0 && bottom == t.last)
        invariant i == 1 ==> t.last == 1
      {
        if (bottom + 1) % 2 == 1 {
          return blindiTree[top], false;
        }
        bottom := top;
        var temp := (top + 1) / 2;
        top := if temp > 0 then temp - 1 else 0;
        i := i - 1;
      }
      return 0, true;
    }

    /** The second stage in the tree.  With two levels the slot above the last one is the head, whose
        difference is below that of the query here, so the walk up ends at once. */
    method SearchSecondStageTree(diffPos: nat, largeSmall: bool, t: Traverse, ghost walked: Traverse, ghost probe: nat) returns (pos: nat, smallerThanNode: bool)
      requires Valid() && validLen > 0 && Diffs() != [] && Walked(Diffs(), blindiTree[..], probe, walked) && t == walked.(inTree := true)
      requires blindiTree[t.last] == END_TREE || diffPos < Diffs()[blindiTree[t.last]]
      requires Diffs()[blindiTree[0]] < diffPos
      ensures smallerThanNode <==> Rank(Diffs(), probe, diffPos, largeSmall) == 0
      ensures pos == if smallerThanNode then 0 else Rank(Diffs(), probe, diffPos, largeSmall) - 1
    {
      WholeSide(Diffs(), blindiTree[..], probe, diffPos, walked);
      hide Adjacent, TreeOf, RightEnd, LeftEnd;
      smallerThanNode := false;
      if (t.last + 1) % 2 == 1 {
        if largeSmall {
          pos := BringLargestInSubtree(t);
        } else {
          pos := blindiTree[t.previous];
        }
      } else {
        if largeSmall {
          pos := blindiTree[t.previous];
        } else {
          pos, smallerThanNode := BringSmallestInSubtree(t);
        }
      }
    }

    /** Point search reports a hit exactly when the key is stored; predecessor search returns the
        position of the largest key not greater than the query, or flags that there is none.  Position
        and flag are those of the plain scans of the node. */
    method SearchBlindiNode(q: Key, predecessor: bool)
      returns (pos: nat, hit: bool, smallerThanNode: bool, diffPos: nat, largeSmall: bool, t: Traverse, ghost probe: nat)
      requires Valid() && validLen > 0 && |q| == keyBits
      ensures pos < validLen && (hit <==> q in Stored())
      ensures hit ==> Stored()[pos] == q && !smallerThanNode
      ensures Below(Diffs(), |q|) && probe == FirstStage(Diffs(), q)
      ensures !predecessor ==> pos == probe && !smallerThanNode
      ensures !hit && predecessor ==> Probes(Stored(), Diffs(), q, probe, diffPos) && largeSmall == q[diffPos]
      ensures !hit && predecessor ==> smallerThanNode == (Rank(Diffs(), probe, diffPos, largeSmall) == 0)
      ensures !hit && predecessor ==> pos == if smallerThanNode then 0 else Rank(Diffs(), probe, diffPos, largeSmall) - 1
      ensures !hit && predecessor ==> Landed(Diffs(), blindiTree[..], probe, diffPos, t.last, t.len, t.inTree)
      ensures Uniform(Stored(), keyBits)
      ensures predecessor ==> IsRank(Stored(), keyBits, q, if smallerThanNode then 0 else pos + 1)
    {
      hide *;
      ValidParts();
      ghost var keys, diffs, tree := Stored(), Diffs(), blindiTree[..];
      DiffsBelow();
      smallerThanNode := false;
      pos, t := SearchFirstStage(q);
      FirstStageMaximal(keys, diffs, q);
      probe := pos;
      var dbKey := keyPtr[pos];
      assert dbKey == keys[pos];
      diffPos, hit, largeSmall := Diff(q, dbKey), q == dbKey, Less(dbKey, q);
      if hit {
        HitIsRank(keys, keyBits, q, pos);
      }
      if !predecessor || hit {
        return;
      }
      NowProbes(keys, diffs, q, pos);
      RankCorrect(keys, diffs, q, pos, diffPos);
      LandsSomewhere(keys, diffs, tree, q, pos, diffPos, t);
      ghost var walked := t;
      if blindiTree[t.last] == END_TREE || diffPos < blindiKeys[blindiTree[t.last]] {
        t := t.(inTree := true);
        if blindiTree[0] == END_TREE || diffPos < blindiKeys[blindiTree[0]] {
          t := t.(len := 1, last := 0);
          if largeSmall {
            pos := validLen - 1;
          } else {
            smallerThanNode, pos := true, 0;
          }
          return;
        }
        pos, smallerThanNode := SearchSecondStageTree(diffPos, largeSmall, t, walked, probe);
      } else {
        pos, smallerThanNode := SearchSecondStageSeq(pos, diffPos, largeSmall, t);
      }
    }

    lemma ValidParts()
      requires Valid() && validLen > 0
      ensures Flat() && Shaped() && validLen <= keyPtr.Length && validLen <= blindiKeys.Length + 1 && |blindiTree[..]| == blindiTree.Length == TREE_SIZE
      ensures Adjacent(Stored(), Diffs(), keyBits) && TreeOf(Diffs(), blindiTree[..])
      ensures |Diffs()| == validLen - 1 && |Stored()| == validLen
      ensures Diffs() == blindiKeys[..validLen - 1] && Stored() == keyPtr[..validLen]
    {
      hide Adjacent, TreeOf;
    }

    // ----------------------------------------------------------------------------------
    // Insertion
    // ----------------------------------------------------------------------------------

    /** Moves one position if its difference has moved, and tells whether all further left can stay. */
    method ShiftSlot(k: nat, insertPosition: nat, diffPos: nat) returns (stop: bool)
      requires blindiTree.Length == TREE_SIZE && k < TREE_SIZE && blindiTree != blindiKeys
      requires blindiTree[k] == insertPosition ==> insertPosition < blindiKeys.Length
      modifies blindiTree
      ensures blindiTree[..] == old(blindiTree[..])[k := blindiTree[k]]
      ensures var t := old(blindiTree[k]);
              && blindiTree[k] == (if (t != END_TREE && t > insertPosition) || (t == insertPosition && diffPos == blindiKeys[t]) then t + 1 else t)
              && stop == (t < insertPosition)
    {
      stop := false;
      if (blindiTree[k] != END_TREE && blindiTree[k] > insertPosition) || (blindiTree[k] == insertPosition && diffPos == blindiKeys[blindiTree[k]]) {
        blindiTree[k] := blindiTree[k] + 1;
      } else if blindiTree[k] < insertPosition {
        stop := true;
      }
    }

    /** Goes over the levels, from the largest slot of a level to the smallest, and moves the positions
        from the new difference on up by one. */
    method UpdatePositions(insertPosition: nat, diffPos: nat, ghost x: nat)
      requires blindiTree.Length == TREE_SIZE && blindiTree != blindiKeys && insertPosition < blindiKeys.Length && insertPosition < END_TREE
      requires x == if blindiKeys[insertPosition] == diffPos then insertPosition else insertPosition + 1
      requires blindiTree[1] == END_TREE || blindiTree[2] == END_TREE || blindiTree[1] < blindiTree[2]
      modifies blindiTree
      ensures blindiTree[..] == [Shifted(old(blindiTree[0]), x), Shifted(old(blindiTree[1]), x), Shifted(old(blindiTree[2]), x)]
    {
      ghost var t0, t1, t2 := blindiTree[0], blindiTree[1], blindiTree[2];
      var _ := ShiftSlot(0, insertPosition, diffPos);
      var stop := ShiftSlot(2, insertPosition, diffPos);
      if !stop {
        var _ := ShiftSlot(1, insertPosition, diffPos);
      }
    }

    /** Puts the new difference into the tree where the search has found it to be a minimum. */
    method InsertIntoTree(x: nat, t: Traverse)
      requires blindiTree.Length == TREE_SIZE && t.last < TREE_SIZE && (t.len == 1 ==> t.last == 0)
      modifies blindiTree
      ensures var s, s0 := old(blindiTree[..]), old(blindiTree[0]);
              blindiTree[..] == if !t.inTree then s
                                else if t.len == 1 then [x, if s0 < x then s0 else END_TREE, if s0 < x then END_TREE else s0]
                                else s[t.last := x]
    {
      if t.inTree {
        var temp := blindiTree[t.last];
        blindiTree[t.last] := x;
        if t.len + 1 <= TREE_LEVELS && t.len == 1 {
          if temp < x {
            blindiTree[1], blindiTree[2] := temp, END_TREE;
          } else {
            blindiTree[1], blindiTree[2] := END_TREE, temp;
          }
        }
      }
    }

    /** Shifts keys and differences up, puts the new ones in place, and brings the tree up to date. */
    method Insert2BlindiNodeInPosition(q: Key, insertPosition: nat, diffPos: nat, largeSmall: bool, smallerThanNode: bool, t: Traverse, ghost probe: nat)
      requires Valid() && 0 < validLen < slots && |q| == keyBits
      requires Probes(Stored(), Diffs(), q, probe, diffPos) && largeSmall == q[diffPos]
      requires smallerThanNode == (Rank(Diffs(), probe, diffPos, largeSmall) == 0)
      requires insertPosition == if smallerThanNode then 0 else Rank(Diffs(), probe, diffPos, largeSmall) - 1
      requires Landed(Diffs(), blindiTree[..], probe, diffPos, t.last, t.len, t.inTree)
      modifies this, keyPtr, blindiKeys, blindiTree
      ensures Valid() && validLen == old(validLen) + 1
      ensures Stored() == InsertedAt(old(Stored()), Rank(old(Diffs()), probe, diffPos, largeSmall), q)
    {
      hide Adjacent, TreeOf, Probes, Rank, Landed, InsertedAt, Shifted, Valid, Flat;
      ValidParts();
      ghost var keys, diffs, tree := Stored(), Diffs(), blindiTree[..];
      ProbeInside(keys, diffs, q, probe, diffPos);
      ghost var r := Rank(diffs, probe, diffPos, largeSmall);
      InsertAdjacent(keys, diffs, q, probe, diffPos);
      var at := insertPosition + 1 - (if smallerThanNode then 1 else 0);
      var insertBlindikeyPosition := if largeSmall then insertPosition else at;
      InsertPlaces(keys, diffs, tree, q, probe, diffPos, r, insertPosition, insertBlindikeyPosition, t);
      ShiftUp(keyPtr, at, validLen, q);
      ShiftUp(blindiKeys, insertBlindikeyPosition, validLen - 1, diffPos);
      validLen := validLen + 1;
      UpdatePositions(insertPosition, diffPos, insertBlindikeyPosition);
      InsertIntoTree(insertBlindikeyPosition, t);
      ValidAgain();
    }

    method FirstInsert(q: Key)
      requires Shaped() && |q| == keyBits && 0 < slots && validLen == 0
      modifies this, keyPtr, blindiKeys, blindiTree
      ensures Valid() && Stored() == [q]
    {
      blindiKeys[0] := 0;
      keyPtr[0] := q;
      Clear(blindiTree);
      validLen := 1;
      assert keyPtr[..1] == [q] && blindiKeys[..0] == [];
      assert Adjacent([q], [], keyBits);
    }

    /** Inserts a key that is not stored yet at its rank, unless the node is full. */
    method Insert2BlindiNodeWithKey(q: Key) returns (result: InsertResult)
      requires Valid() && |q| == keyBits && 0 < slots && (validLen < slots ==> q !in Stored())
      modifies this, keyPtr, blindiKeys, blindiTree
      ensures Valid()
      ensures result == if old(validLen) == slots then InsertOverflow else InsertSuccess
      ensures result == InsertOverflow ==> Stored() == old(Stored())
      ensures Uniform(old(Stored()), keyBits)
      ensures result == InsertSuccess ==>
                exists r :: IsRank(old(Stored()), keyBits, q, r) && Stored() == InsertedAt(old(Stored()), r, q)
    {
      hide Adjacent, TreeOf, Probes, Rank, Landed;
      ghost var before := Stored();
      StoredUniform();
      if validLen == slots {
        return InsertOverflow;
      }
      if validLen == 0 {
        FirstInsert(q);
        assert IsRank(before, keyBits, q, 0) && Stored() == InsertedAt(before, 0, q);
        return InsertSuccess;
      }
      var position, hit, smallerThanNode, diffPos, largeSmall, t, probe := SearchBlindiNode(q, true);
      ProbeInside(Stored(), Diffs(), q, probe, diffPos);
      ghost var r := Rank(Diffs(), probe, diffPos, largeSmall);
      Insert2BlindiNodeInPosition(q, position, diffPos, largeSmall, smallerThanNode, t, probe);
      assert IsRank(before, keyBits, q, r) && Stored() == InsertedAt(before, r, q);
      return InsertSuccess;
    }

    lemma StoredUniform()
      requires Valid()
      ensures Uniform(Stored(), keyBits) && StrictlySorted(Stored(), keyBits)
    {
      if validLen > 0 { DiffsBelow(); }
    }

    // ----------------------------------------------------------------------------------
    // Removal
    // ----------------------------------------------------------------------------------

    /** Removes a key and its difference.  The tree follows, except in one case: removing the first of
        two keys returns before the tree is touched. */
    method RemoveFromBlindiNodeInPosition(removePosition: nat) returns (result: RemoveResult)
      requires Valid() && removePosition < validLen
      modifies this, keyPtr, blindiKeys, blindiTree
      ensures Shaped() && validLen == old(validLen) - 1 && Stored() == RemovedAt(old(Stored()), removePosition)
      ensures validLen > 0 ==> Flat() && Diffs() == DiffsWithout(old(Diffs()), removePosition)
      ensures Valid() <==> !(old(validLen) == 2 && removePosition == 0)
      ensures result == if validLen == 0 then RemoveNodeEmpty else RemoveSuccess
    {
      hide Adjacent, TreeOf, RemovedAt, DiffsWithout;
      ValidParts();
      ghost var keys, diffs, tree, n := Stored(), Diffs(), blindiTree[..], validLen;
      if validLen == 1 {
        validLen := 0;
        OnlyRemoved(keys);
        return RemoveNodeEmpty;
      }
      RemoveAdjacent(keys, diffs, keyBits, removePosition);
      WithoutIsRemoved(diffs, removePosition);
      if removePosition == validLen - 1 || validLen <= 2 {
        EdgeRemoved(keys, diffs);
        if validLen > 2 || removePosition == 1 {
          blindiKeys[removePosition - 1] := 0;
        } else {
          blindiKeys[0] := 0;
          keyPtr[0] := keyPtr[1];
          validLen := 1;
          assert keyPtr[..1] == keys[1..] && blindiKeys[..0] == diffs[1..];
          StaleTree(diffs, tree);
          return RemoveSuccess;
        }
        validLen := validLen - 1;
        assert keyPtr[..n - 1] == keys[..n - 1] && blindiKeys[..n - 2] == diffs[..n - 2];
      } else {
        RemoveInside(removePosition);
      }
      RemoveFromTree(blindiKeys, blindiTree, validLen, removePosition, Stored(), Diffs(), keyBits, diffs);
      return RemoveSuccess;
    }

    /** Removal in front of the last of at least three keys, from the flat part. */
    method RemoveInside(removePosition: nat)
      requires Flat() && 2 < validLen && removePosition < validLen - 1
      modifies this`validLen, keyPtr, blindiKeys
      ensures Flat() && validLen == old(validLen) - 1 && Stored() == RemovedAt(old(Stored()), removePosition)
      ensures Diffs() == DiffsWithout(old(Diffs()), removePosition)
    {
      hide Adjacent, RemovedAt, DiffsWithout;
      RemoveAdjacent(Stored(), Diffs(), keyBits, removePosition);
      InnerRemoved(Diffs(), removePosition);
      if removePosition != 0 {
        blindiKeys[removePosition - 1] :=
          if blindiKeys[removePosition] < blindiKeys[removePosition - 1] then blindiKeys[removePosition] else blindiKeys[removePosition - 1];
      }
      assert blindiKeys[..validLen - 1] == if removePosition == 0 then old(Diffs()) else old(Diffs())[removePosition - 1 := blindiKeys[removePosition - 1]];
      ShiftDown(keyPtr, removePosition, validLen);
      ShiftDown(blindiKeys, removePosition, validLen - 1);
      validLen := validLen - 1;
    }

    /** Removes exactly the given key, and reports when the node runs empty or under half full. */
    method RemoveFromBlindiNodeWithKey(q: Key) returns (result: RemoveResult)
      requires Valid() && |q| == keyBits && 0 < validLen
      modifies this, keyPtr, blindiKeys, blindiTree
      ensures Shaped() && (validLen > 0 ==> Flat())
      ensures Valid() <==> !(old(validLen) == 2 && q == old(Stored())[0])
      ensures result == RemoveKeyNotFound <==> q !in old(Stored())
      ensures result == RemoveKeyNotFound ==> Stored() == old(Stored())
      ensures result != RemoveKeyNotFound ==>
                exists i :: 0 <= i < old(validLen) && old(Stored())[i] == q && Stored() == RemovedAt(old(Stored()), i)
      ensures result == RemoveNodeEmpty <==> result != RemoveKeyNotFound && validLen == 0
      ensures result == RemoveUnderflow ==> 0 < validLen < slots / 2
      ensures result == RemoveSuccess ==> slots / 2 <= validLen
    {
      hide Adjacent, TreeOf;
      ghost var before := Stored();
      StoredUniform();
      var position, hit, _, _, _, _, _ := SearchBlindiNode(q, false);
      if !hit {
        return RemoveKeyNotFound;
      }
      FirstOnly(before, keyBits, position);
      result := RemoveFromBlindiNodeInPosition(position);
      assert before[position] == q && Stored() == RemovedAt(before, position);
      if validLen < slots / 2 && result == RemoveSuccess {
        return RemoveUnderflow;
      }
    }

    // ----------------------------------------------------------------------------------
    // Building, splitting and merging
    // ----------------------------------------------------------------------------------

    /** Takes over the sorted keys of a plain leaf: one comparison a neighbouring pair, the root of the
        tree as a running minimum.  The tree is that of the differences if there are at least two keys. */
    method TransferBtree2Blindi(keys: seq<Key>)
      requires Shaped() && 0 < |keys| <= slots && Uniform(keys, keyBits) && StrictlySorted(keys, keyBits)
      modifies this, keyPtr, blindiKeys, blindiTree
      ensures Flat() && Stored() == keys
      ensures Valid() <==> |keys| >= 2
    {
      hide Adjacent, TreeOf, StrictlySorted;
      validLen := |keys|;
      ComparePairs(keys, keyPtr, blindiKeys, blindiTree, keyBits);
      keyPtr[validLen - 1] := keys[validLen - 1];
      assert keyPtr[..validLen] == keys;
      ghost var diffs := blindiKeys[..validLen - 1];
      if validLen > 1 {
        MinIsUnique(keys, diffs, keyBits, 0, validLen - 1, blindiTree[0]);
      }
      BuildTree(blindiKeys, blindiTree, validLen, keys, diffs, keyBits);
    }

    ghost predicate Apart(other: SeqTreeBlindiNode)
    {
      && this != other && keyBits == other.keyBits && slots == other.slots && keyPtr != other.keyPtr
      && {blindiKeys, blindiTree} !! {other.blindiKeys, other.blindiTree}
    }

    /** Copies half of the keys and differences. */
    method TakeHalf(source: SeqTreeBlindiNode, at: nat, half: nat)
      requires Shaped() && source.Flat() && Apart(source) && 0 < half && at + half <= source.validLen && half <= slots
      modifies this, keyPtr, blindiKeys
      ensures Flat() && validLen == half
      ensures Stored() == source.Stored()[at..at + half] && Diffs() == source.Diffs()[at..at + half - 1]
    {
      hide *;
      FlatParts(source);
      ghost var ks, ds := source.Stored(), source.Diffs();
      SliceAdjacent(ks, ds, keyBits, at, at + half);
      ArraySlice(source.keyPtr, source.validLen, at, at + half);
      ArraySlice(source.blindiKeys, source.validLen - 1, at, at + half - 1);
      CopyForward(source.keyPtr, at, at + half, keyPtr, 0);
      CopyForward(source.blindiKeys, at, at + half - 1, blindiKeys, 0);
      validLen := half;
      FlatAgain(ks[at..at + half], ds[at..at + half - 1]);
    }

    lemma FlatParts(source: SeqTreeBlindiNode)
      requires Shaped() && source.Flat() && Apart(source)
      ensures source.Shaped() && source.validLen > 0 && source.validLen <= source.keyPtr.Length == source.blindiKeys.Length + 1 && keyPtr.Length == blindiKeys.Length + 1 == slots
      ensures Adjacent(source.Stored(), source.Diffs(), keyBits) && this != source && keyPtr != source.keyPtr && blindiKeys != source.blindiKeys
      ensures source.Stored() == source.keyPtr[..source.validLen] && source.Diffs() == source.blindiKeys[..source.validLen - 1]
      ensures |source.Stored()| == source.validLen
      ensures blindiKeys != source.blindiTree && slots % 2 == 0 && slots < 254 && keyBits <= 248 && blindiTree.Length == TREE_SIZE && blindiKeys != blindiTree
    {
      hide Adjacent;
    }

    lemma FlatAgain(ks: seq<Key>, ds: seq<nat>)
      requires 0 < validLen <= slots < 254 && slots % 2 == 0 && keyBits <= 248 && keyPtr.Length == slots && blindiKeys.Length == slots - 1
      requires blindiTree.Length == TREE_SIZE && blindiKeys != blindiTree
      requires Adjacent(ks, ds, keyBits) && |ds| == validLen - 1 && keyPtr[0..0 + validLen] == ks && blindiKeys[0..0 + (validLen - 1)] == ds
      ensures Flat() && Stored() == ks && Diffs() == ds
    {
      hide Adjacent;
      assert keyPtr[..validLen] == ks && blindiKeys[..validLen - 1] == ds;
    }

    /** Looks for the minima of the ranges whose slots have stayed empty. */
    method FillHalf()
      requires Flat() && 2 <= validLen && Partial(Diffs(), blindiTree[..])
      modifies blindiTree
      ensures Valid() && Stored() == old(Stored())
    {
      hide Adjacent, TreeOf, Partial;
      FillFromSeq(blindiKeys, blindiTree, validLen, Stored(), Diffs(), keyBits);
    }

    /** Splits a full node into two halves: keys and differences are copied, the slots of the tree are
        handed down to the half their position lies in, and empty slots are looked for in the half. */
    method SplitBlindiNode(nodeSmall: SeqTreeBlindiNode, nodeLarge: SeqTreeBlindiNode)
      requires Valid() && validLen == slots && 4 <= slots
      requires nodeSmall.Shaped() && nodeLarge.Shaped() && Apart(nodeSmall) && Apart(nodeLarge) && nodeSmall.Apart(nodeLarge)
      modifies nodeSmall, nodeSmall.keyPtr, nodeSmall.blindiKeys, nodeSmall.blindiTree
      modifies nodeLarge, nodeLarge.keyPtr, nodeLarge.blindiKeys, nodeLarge.blindiTree
      ensures Valid() && Stored() == old(Stored()) && nodeSmall.Valid() && nodeLarge.Valid()
      ensures nodeSmall.Stored() == Stored()[..slots / 2] && nodeLarge.Stored() == Stored()[slots / 2..]
    {
      hide *;
      ValidParts();
      ApartParts(nodeSmall);
      ApartParts(nodeLarge);
      nodeSmall.ApartParts(nodeLarge);
      var half := validLen / 2;
      ghost var diffs, tree := Diffs(), blindiTree[..];
      nodeSmall.TakeHalf(this, 0, half);
      nodeLarge.TakeHalf(this, half, half);
      SplitTree(blindiTree, nodeSmall.blindiTree, nodeLarge.blindiTree, half, diffs);
      HalvesPartial(diffs, tree, half);
      nodeSmall.FillHalf();
      nodeLarge.FillHalf();
    }

    lemma ApartParts(other: SeqTreeBlindiNode)
      requires Shaped() && other.Shaped() && Apart(other)
      ensures this != other && keyBits == other.keyBits && slots == other.slots && keyPtr != other.keyPtr
      ensures blindiKeys != other.blindiKeys && blindiKeys != other.blindiTree && blindiTree != other.blindiKeys && blindiTree != other.blindiTree
      ensures other.blindiKeys != other.blindiTree && other.Apart(this) && blindiTree.Length == other.blindiTree.Length == TREE_SIZE && blindiKeys != blindiTree && slots % 2 == 0
    {
    }

    /** Appends the keys of a node whose keys all follow. */
    method MergeBlindiNodes(nodeLarge: SeqTreeBlindiNode)
      requires Valid() && nodeLarge.Valid() && Apart(nodeLarge)
      requires (0 < validLen || 0 < nodeLarge.validLen) && validLen + nodeLarge.validLen <= slots
      requires Uniform(Stored() + nodeLarge.Stored(), keyBits) && StrictlySorted(Stored() + nodeLarge.Stored(), keyBits)
      modifies this, keyPtr, blindiKeys, blindiTree
      ensures Valid() && nodeLarge.Valid()
      ensures Stored() == old(Stored()) + old(nodeLarge.Stored()) && nodeLarge.Stored() == old(nodeLarge.Stored())
    {
      hide Adjacent, TreeOf;
      if validLen == 0 {
        CopyNode(nodeLarge);
        return;
      }
      if nodeLarge.validLen == 0 {
        return;
      }
      MergeNonEmpty(nodeLarge);
    }

    method CopyNode(nodeLarge: SeqTreeBlindiNode)
      requires Shaped() && validLen == 0 && nodeLarge.Valid() && Apart(nodeLarge) && 0 < nodeLarge.validLen
      modifies this, keyPtr, blindiKeys, blindiTree
      ensures Valid() && nodeLarge.Valid()
      ensures Stored() == nodeLarge.Stored() == old(nodeLarge.Stored())
    {
      hide Adjacent, TreeOf;
      var n := nodeLarge.validLen;
      CopyForward(nodeLarge.keyPtr, 0, n, keyPtr, 0);
      CopyForward(nodeLarge.blindiKeys, 0, n - 1, blindiKeys, 0);
      validLen := validLen + n;
      CopyForward(nodeLarge.blindiTree, 0, TREE_SIZE, blindiTree, 0);
      assert keyPtr[..n] == nodeLarge.keyPtr[..n] && blindiKeys[..n - 1] == nodeLarge.blindiKeys[..n - 1];
      assert blindiTree[..] == nodeLarge.blindiTree[..];
    }

    method MergeNonEmpty(nodeLarge: SeqTreeBlindiNode)
      requires Valid() && nodeLarge.Valid() && Apart(nodeLarge)
      requires 0 < validLen && 0 < nodeLarge.validLen && validLen + nodeLarge.validLen <= slots
      requires Uniform(Stored() + nodeLarge.Stored(), keyBits) && StrictlySorted(Stored() + nodeLarge.Stored(), keyBits)
      modifies this, keyPtr, blindiKeys, blindiTree
      ensures Valid() && nodeLarge.Valid()
      ensures Stored() == old(Stored()) + old(nodeLarge.Stored()) && nodeLarge.Stored() == old(nodeLarge.Stored())
    {
      hide Adjacent, TreeOf;
      ValidParts();
      nodeLarge.ValidParts();
      var n1, n2 := validLen, nodeLarge.validLen;
      ghost var k1, d1, k2, d2 := Stored(), Diffs(), nodeLarge.Stored(), nodeLarge.Diffs();
      LastBeforeFirst(k1, k2, keyBits);
      ConcatAdjacent(k1, d1, k2, d2, keyBits);
      CopyForward(nodeLarge.keyPtr, 0, n2, keyPtr, n1);
      CopyForward(nodeLarge.blindiKeys, 0, n2 - 1, blindiKeys, n1);
      var diffPos := Diff(keyPtr[n1 - 1], nodeLarge.keyPtr[0]);
      blindiKeys[n1 - 1] := diffPos;
      validLen := validLen + n2;
      assert keyPtr[..n1 + n2] == k1 + k2;
      assert blindiKeys[..n1 + n2 - 1] == d1 + [diffPos] + d2;
      assert blindiKeys[..n1 - 1] == d1;
      MergeTrees(blindiKeys, blindiTree, nodeLarge.blindiKeys, nodeLarge.blindiTree, n1, diffPos, k1 + k2, d1, d2, keyBits);
      ValidAgain();
    }

    lemma ValidAgain()
      requires Shaped() && validLen > 0 && Adjacent(keyPtr[..validLen], blindiKeys[..validLen - 1], keyBits)
      requires TreeOf(blindiKeys[..validLen - 1], blindiTree[..])
      ensures Valid()
    {
      hide Adjacent, TreeOf;
    }
  }

  /** Both halves of a tree, with empty slots for what lies in the other half. */
  lemma HalvesPartial(diffs: seq<nat>, tree: seq<nat>, half: nat)
    requires TreeOf(diffs, tree) && 2 <= half && |diffs| == 2 * half - 1
    ensures Partial(diffs[0..0 + half - 1], HalfTree(tree, 0, half - 1)) && Partial(diffs[half..half + half - 1], HalfTree(tree, half, half - 1))
  {
    hide TreeOf, Partial, HalfTree;
    HalfTreePartial(diffs, tree, 0, half - 1);
    HalfTreePartial(diffs, tree, half, half - 1);
  }

  /** Where a first stage has ended: the slot whose range the position belongs to, and bounds for the
      second stage that are minima on its way, or the ends of the node. */
  ghost predicate Walked(diffs: seq<nat>, tree: seq<nat>, pos: nat, t: Traverse)
    requires TreeOf(diffs, tree)
  {
    && pos <= |diffs| && !t.inTree
    && (diffs == [] ==> t.last == 0)
    && (diffs != [] ==>
        && t.len == 2 && t.previous == 0 && (t.last == 1 || t.last == 2)
        && (t.last == 1 ==> pos <= tree[0]) && (t.last == 2 ==> tree[0] < pos)
        && (tree[t.last] != END_TREE ==>
            && (t.start == 0 || (t.start < pos && (t.start == tree[0] || t.start == tree[t.last])))
            && ((t.end == |diffs| - 1 && pos <= t.end + 1) || (pos <= t.end && (t.end == tree[0] || t.end == tree[t.last])))))
  }

  /** On the way down: the range of the current slot is what is left to scan. */
  ghost predicate Walking(diffs: seq<nat>, tree: seq<nat>, q: Key, i: nat, treePosP1: nat, last: nat,
      start: nat, end: int, isStart: nat, isEnd: nat, isLastLarge: nat, pos: nat)
    requires TreeOf(diffs, tree) && Below(diffs, |q|)
  {
    && diffs != [] && isStart <= 1 && isEnd <= 1
    && 0 <= start + isStart == pos <= end - isEnd + 1 <= |diffs|
    && FirstStage(diffs, q) == Scan(diffs, q, start + isStart, end - isEnd + 1, pos, NoMiss).0
    && (i == 0 ==> pos == 0 && end == |diffs| - 1 && isStart == 0 && isEnd == 0)
    && (i == 1 ==>
        if q[diffs[tree[0]]]
        then treePosP1 == 3 && isLastLarge == 1 && start == tree[0] && isStart == 1 && end == |diffs| - 1 && isEnd == 0
        else treePosP1 == 2 && isLastLarge == 0 && start == 0 && isStart == 0 && end == tree[0] && isEnd == 1)
    && (i == 2 ==>
        && (last == 1 || last == 2) && tree[last] != END_TREE
        && (if last == 2 then tree[0] < pos else end - isEnd + 1 <= tree[0])
        && (isStart == 0 ==> start == 0) && (isStart == 1 ==> start == tree[0] || start == tree[last])
        && (isEnd == 0 ==> end == |diffs| - 1) && (isEnd == 1 ==> end == tree[0] || end == tree[last]))
  }

  lemma NothingToWalk(diffs: seq<nat>, tree: seq<nat>, q: Key, t: Traverse)
    requires TreeOf(diffs, tree) && Below(diffs, |q|) && (diffs == [] || tree[0] == END_TREE) && t == Traverse(0, |diffs| - 1, 0, 0, false, 0)
    ensures FirstStage(diffs, q) == 0 && Walked(diffs, tree, 0, t)
  {
  }

  lemma WalkStarts(diffs: seq<nat>, tree: seq<nat>, q: Key)
    requires TreeOf(diffs, tree) && Below(diffs, |q|) && diffs != []
    ensures Walking(diffs, tree, q, 0, 1, 0, 0, |diffs| - 1, 0, 0, 0, 0)
  {
  }

  lemma WalkStep(diffs: seq<nat>, tree: seq<nat>, q: Key, i: nat, treePosP1: nat, start: nat, end: int, isStart: nat, isEnd: nat, isLastLarge: nat, pos: nat)
    requires TreeOf(diffs, tree) && Below(diffs, |q|) && i < 2 && Walking(diffs, tree, q, i, treePosP1, 0, start, end, isStart, isEnd, isLastLarge, pos)
    requires treePosP1 == 1 || i == 1
    requires 1 <= treePosP1 <= 3 && tree[treePosP1 - 1] != END_TREE
    ensures var m := tree[treePosP1 - 1];
            && m < |diffs|
            && (q[diffs[m]] ==> Walking(diffs, tree, q, i + 1, (treePosP1 + 1) * 2 - 1, treePosP1 - 1, m, end, 1, isEnd, 1, m + 1))
            && (!q[diffs[m]] ==> Walking(diffs, tree, q, i + 1, treePosP1 * 2, treePosP1 - 1, start, m, isStart, 1, 0, pos))
  {
    var m := tree[treePosP1 - 1];
    ScanNarrows(diffs, q, start + isStart, end - isEnd + 1, m, pos);
  }

  lemma WalkEnds(diffs: seq<nat>, tree: seq<nat>, q: Key, i: nat, treePosP1: nat, start: nat, end: int, isStart: nat, isEnd: nat, isLastLarge: nat, pos: nat, t: Traverse)
    requires TreeOf(diffs, tree) && Below(diffs, |q|) && i < 2 && Walking(diffs, tree, q, i, treePosP1, 0, start, end, isStart, isEnd, isLastLarge, pos)
    requires treePosP1 == 1 || i == 1
    requires 1 <= treePosP1 <= 3 && tree[treePosP1 - 1] == END_TREE
    requires t == Traverse(t.start, t.end, treePosP1 - 1, 0, false, i + 1)
    ensures FirstStage(diffs, q) == tree[0] + isLastLarge == pos && Walked(diffs, tree, pos, t)
  {
    ScanEmpty(diffs, q, pos, pos);
  }

  lemma WalkDone(diffs: seq<nat>, tree: seq<nat>, q: Key, treePosP1: nat, start: nat, end: int, isStart: nat, isEnd: nat, isLastLarge: nat, pos: nat, t: Traverse)
    requires TreeOf(diffs, tree) && Below(diffs, |q|) && Walking(diffs, tree, q, 2, treePosP1, t.last, start, end, isStart, isEnd, isLastLarge, pos)
    requires t == Traverse(start, end, t.last, 0, false, 2)
    ensures start + isStart <= end - isEnd + 1 <= |diffs|
    ensures FirstStage(diffs, q) == Scan(diffs, q, start + isStart, end - isEnd + 1, pos, NoMiss).0
    ensures Walked(diffs, tree, FirstStage(diffs, q), t)
  {
    ScanStays(diffs, q, start + isStart, end - isEnd + 1, pos, NoMiss);
  }

  /** The bounds of the walk stop the scans of the second stage where the plain ones stop. */
  lemma BoundsFound(diffs: seq<nat>, tree: seq<nat>, p: nat, d: nat, t: Traverse)
    requires TreeOf(diffs, tree) && diffs != [] && Walked(diffs, tree, p, t)
    requires tree[t.last] != END_TREE && diffs[tree[0]] < d && diffs[tree[t.last]] < d
    ensures t.start <= p <= t.end + 1 <= |diffs| && p <= |diffs|
    ensures t.start > 0 ==> t.start < p && diffs[t.start] < d
    ensures t.end < |diffs| - 1 ==> p <= t.end && diffs[t.end] < d
  {
  }

  /** In a side of the tree without a difference below that of the query all keys are on one side of it. */
  lemma WholeSide(diffs: seq<nat>, tree: seq<nat>, p: nat, d: nat, t: Traverse)
    requires TreeOf(diffs, tree) && diffs != [] && Walked(diffs, tree, p, t)
    requires tree[t.last] == END_TREE || d < diffs[tree[t.last]]
    requires diffs[tree[0]] < d
    ensures RightEnd(diffs, p, d) == if t.last == 1 then tree[0] else |diffs|
    ensures LeftEnd(diffs, p, d) == if t.last == 1 then 0 else tree[0] + 1
  {
    hide IsArgMin;
    SideDiffs(diffs, tree, d, t.last);
    if t.last == 1 {
      RightEndIs(diffs, p, d, tree[0]);
      LeftEndIs(diffs, p, d, 0);
    } else {
      RightEndIs(diffs, p, d, |diffs|);
      LeftEndIs(diffs, p, d, tree[0] + 1);
    }
  }

  lemma SideDiffs(diffs: seq<nat>, tree: seq<nat>, d: nat, last: nat)
    requires TreeOf(diffs, tree) && diffs != [] && (last == 1 || last == 2)
    requires tree[last] == END_TREE || d < diffs[tree[last]]
    ensures tree[0] < |diffs|
    ensures last == 1 ==> forall j :: 0 <= j < tree[0] ==> d < diffs[j]
    ensures last == 2 ==> forall j :: tree[0] < j < |diffs| ==> d < diffs[j]
  {
  }

  lemma NowProbes(keys: seq<Key>, diffs: seq<nat>, q: Key, p: nat)
    requires Adjacent(keys, diffs, |q|) && p < |keys| && keys[p] != q
    requires forall j :: 0 <= j < |keys| ==> Diff(q, keys[j]) <= Diff(q, keys[p])
    ensures |keys[p]| == |q| && Probes(keys, diffs, q, p, Diff(q, keys[p])) && Less(keys[p], q) == q[Diff(q, keys[p])]
  {
    DiffSymmetric(q, keys[p]);
  }

  /** What the tests of the search decide: in which slot the new difference belongs. */
  lemma LandsSomewhere(keys: seq<Key>, diffs: seq<nat>, tree: seq<nat>, q: Key, p: nat, d: nat, t: Traverse)
    requires TreeOf(diffs, tree) && Walked(diffs, tree, p, t) && Probes(keys, diffs, q, p, d)
    ensures !t.inTree && (diffs == [] ==> t.last == 0 && tree[0] == END_TREE)
    ensures |tree| == TREE_SIZE && t.last < TREE_SIZE
    ensures tree[t.last] == END_TREE || tree[t.last] < |diffs|
    ensures tree[0] == END_TREE || tree[0] < |diffs|
    ensures var inTree := tree[t.last] == END_TREE || d < diffs[tree[t.last]];
            if inTree && (tree[0] == END_TREE || d < diffs[tree[0]])
            then
              && Landed(diffs, tree, p, d, 0, 1, true)
              && Rank(diffs, p, d, q[d]) == if q[d] then |diffs| + 1 else 0
            else
              && diffs != [] && diffs[tree[0]] < d && Landed(diffs, tree, p, d, t.last, t.len, inTree)
              && (!inTree ==> diffs[tree[t.last]] < d)
  {
    if diffs == [] {
      NothingLarger(diffs, p, d, q[d]);
    } else {
      NotTheMinima(keys, diffs, tree, q, p, d, t);
      hide Adjacent, Probes, IsArgMin, RightEnd, LeftEnd;
      assert p <= |diffs|;
      if d < diffs[tree[0]] {
        AllLarger(diffs, tree, d);
        NothingLarger(diffs, p, d, q[d]);
      }
    }
  }

  lemma AllLarger(diffs: seq<nat>, tree: seq<nat>, d: nat)
    requires TreeOf(diffs, tree) && diffs != [] && d < diffs[tree[0]]
    ensures forall j :: 0 <= j < |diffs| ==> d < diffs[j]
    ensures tree[1] == END_TREE || d < diffs[tree[1]]
    ensures tree[2] == END_TREE || d < diffs[tree[2]]
  {
  }

  lemma NothingLarger(diffs: seq<nat>, p: nat, d: nat, larger: bool)
    requires p <= |diffs| && forall j :: 0 <= j < |diffs| ==> d < diffs[j]
    ensures Rank(diffs, p, d, larger) == if larger then |diffs| + 1 else 0
  {
    RightEndIs(diffs, p, d, |diffs|);
    LeftEndIs(diffs, p, d, 0);
  }

  lemma NotTheMinima(keys: seq<Key>, diffs: seq<nat>, tree: seq<nat>, q: Key, p: nat, d: nat, t: Traverse)
    requires TreeOf(diffs, tree) && Walked(diffs, tree, p, t) && Probes(keys, diffs, q, p, d) && diffs != []
    ensures tree[0] < |diffs| && d != diffs[tree[0]] && tree[0] != END_TREE && d < |q|
    ensures tree[t.last] != END_TREE ==> tree[t.last] < |diffs| && d != diffs[tree[t.last]]
  {
    hide Adjacent;
    ProbeNotMin(keys, diffs, q, p, d, 0, |diffs|, tree[0]);
    if tree[t.last] != END_TREE {
      if t.last == 1 {
        ProbeNotMin(keys, diffs, q, p, d, 0, tree[0], tree[1]);
      } else {
        ProbeNotMin(keys, diffs, q, p, d, tree[0] + 1, |diffs|, tree[2]);
      }
    }
  }

  /** Where the new difference goes, and what becomes of the tree. */
  lemma InsertPlaces(keys: seq<Key>, diffs: seq<nat>, tree: seq<nat>, q: Key, p: nat, d: nat, r: nat, position: nat, x: nat, t: Traverse)
    requires Probes(keys, diffs, q, p, d) && r == Rank(diffs, p, d, q[d]) && |diffs| + 1 < END_TREE
    requires TreeOf(diffs, tree) && Landed(diffs, tree, p, d, t.last, t.len, t.inTree)
    requires position == if r == 0 then 0 else r - 1
    requires x == if q[d] then position else if r == 0 then 0 else r
    ensures x == NewDiffAt(r, q[d]) && (q[d] ==> r > 0) && x <= |diffs| && r <= |keys| && t.last < TREE_SIZE && (t.len == 1 ==> t.last == 0)
    ensures position <= |diffs| && x == if InsertedAt(diffs, x, d)[position] == d then position else position + 1
    ensures tree[1] == END_TREE || tree[2] == END_TREE || tree[1] < tree[2]
    ensures var s := [Shifted(tree[0], x), Shifted(tree[1], x), Shifted(tree[2], x)];
            TreeOf(InsertedAt(diffs, x, d),
                   if !t.inTree then s
                   else if t.len == 1 then [x, if s[0] < x then s[0] else END_TREE, if s[0] < x then END_TREE else s[0]]
                   else s[t.last := x])
  {
    LandedRange(diffs, tree, p, d, t.last, t.len, t.inTree, q[d]);
    PositionTells(diffs, p, d, q[d], r, position, x);
    SlotsOrdered(diffs, tree);
    TreeFollows(diffs, tree, p, d, x, t);
  }

  lemma PositionTells(diffs: seq<nat>, p: nat, d: nat, larger: bool, r: nat, position: nat, x: nat)
    requires p <= |diffs| && r == Rank(diffs, p, d, larger) && position == (if r == 0 then 0 else r - 1)
    requires x == (if larger then position else r) && x <= |diffs|
    ensures position <= |diffs| && x == if InsertedAt(diffs, x, d)[position] == d then position else position + 1
  {
  }

  lemma SlotsOrdered(diffs: seq<nat>, tree: seq<nat>)
    requires TreeOf(diffs, tree)
    ensures tree[1] == END_TREE || tree[2] == END_TREE || tree[1] < tree[2]
  {
  }

  lemma TreeFollows(diffs: seq<nat>, tree: seq<nat>, p: nat, d: nat, x: nat, t: Traverse)
    requires TreeOf(diffs, tree) && Landed(diffs, tree, p, d, t.last, t.len, t.inTree) && |diffs| + 1 < END_TREE && x <= |diffs|
    requires t.len == 1 ==> x == 0 || x == |diffs|
    requires t.len == 2 && t.last == 1 ==> x <= tree[0]
    requires t.len == 2 && t.last == 2 ==> tree[0] < x
    ensures t.last < TREE_SIZE && (t.len == 1 ==> t.last == 0)
    ensures var s := [Shifted(tree[0], x), Shifted(tree[1], x), Shifted(tree[2], x)];
            TreeOf(InsertedAt(diffs, x, d),
                   if !t.inTree then s
                   else if t.len == 1 then [x, if s[0] < x then s[0] else END_TREE, if s[0] < x then END_TREE else s[0]]
                   else s[t.last := x])
  {
    if t.len == 1 {
      NewRoot(diffs, tree, x, d);
    } else {
      SlotInside(diffs, tree, t.last);
      NewInSlot(diffs, tree, x, d, t.last);
    }
    hide InsertedAt, IsArgMin;
  }

  lemma SlotInside(diffs: seq<nat>, tree: seq<nat>, k: nat)
    requires TreeOf(diffs, tree) && k < TREE_SIZE
    ensures tree[k] != END_TREE ==> tree[k] < |diffs|
  {
  }

  lemma StaleTree(diffs: seq<nat>, tree: seq<nat>)
    requires TreeOf(diffs, tree) && |diffs| == 1
    ensures !TreeOf([], tree)
  {
  }

  lemma FirstOnly(keys: seq<Key>, bits: nat, i: nat)
    requires Uniform(keys, bits) && StrictlySorted(keys, bits) && i < |keys|
    ensures keys[0] == keys[i] ==> i == 0
  {
    if i > 0 { assert Less(keys[0], keys[i]); }
  }

  lemma FirstAdjacent(keys: seq<Key>, bits: nat)
    requires |keys| > 0 && Uniform(keys, bits)
    ensures Adjacent(keys[..1], [], bits)
  {
  }

  lemma NextAdjacent(keys: seq<Key>, diffs: seq<nat>, bits: nat, i: nat)
    requires i + 1 < |keys| && |diffs| == i && Uniform(keys, bits) && StrictlySorted(keys, bits)
    requires Adjacent(keys[..i + 1], diffs, bits)
    ensures |keys[i]| == |keys[i + 1]| && Adjacent(keys[..i + 2], diffs + [Diff(keys[i], keys[i + 1])], bits)
  {
  }

  /** The loop of the build: compares neighbouring keys, and keeps the place of the smallest difference. */
  method ComparePairs(keys: seq<Key>, keyPtr: array<Key>, blindiKeys: array<nat>, blindiTree: array<nat>, ghost bits: nat)
    requires 0 < |keys| <= keyPtr.Length == blindiKeys.Length + 1 && blindiTree.Length == TREE_SIZE && blindiKeys != blindiTree
    requires Uniform(keys, bits) && StrictlySorted(keys, bits)
    modifies keyPtr, blindiKeys, blindiTree
    ensures keyPtr[..|keys| - 1] == keys[..|keys| - 1] && Adjacent(keys, blindiKeys[..|keys| - 1], bits)
    ensures if |keys| == 1 then blindiTree[0] == 0
            else blindiTree[0] < |keys| - 1 && forall j :: 0 <= j < |keys| - 1 ==> blindiKeys[blindiTree[0]] <= blindiKeys[j]
  {
    hide Adjacent, StrictlySorted, Uniform;
    blindiTree[0] := 0;
    var i := 0;
    FirstAdjacent(keys, bits);
    assert blindiKeys[..0] == [];
    while i < |keys| - 1
      invariant 0 <= i <= |keys| - 1
      invariant keyPtr[..i] == keys[..i]
      invariant Adjacent(keys[..i + 1], blindiKeys[..i], bits)
      invariant if i == 0 then blindiTree[0] == 0 else blindiTree[0] < i && forall j :: 0 <= j < i ==> blindiKeys[blindiTree[0]] <= blindiKeys[j]
    {
      ghost var diffs := blindiKeys[..i];
      NextAdjacent(keys, diffs, bits, i);
      blindiKeys[i] := Diff(keys[i], keys[i + 1]);
      assert blindiKeys[..i + 1] == diffs + [blindiKeys[i]];
      blindiTree[0] := if blindiKeys[i] < blindiKeys[blindiTree[0]] then i else blindiTree[0];
      keyPtr[i] := keys[i];
      i := i + 1;
    }
    assert keys[..i + 1] == keys;
  }
}
