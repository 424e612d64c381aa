/** The node that keeps its blind trie as pointers inside index arrays. */
module TrieNode {
  import opened Keys
  import opened NodeArrays
  import opened Trie
  import opened TrieLayout
  import opened TrieWalk
  import opened TrieRelink
  import opened TrieSplice
  import opened TrieMerge
  import opened TrieFill
  import opened TrieCopy
  import opened TriePrune
  import opened TrieCut
  import opened TrieEdits

  class TrieBlindiNode {
    const slots: nat      // NUM_SLOTS
    const ptrArea: nat    // PTR_AREA
    const keyBits: nat
    const blindiKeys: array<nat>
    const smallPtr: array<nat>   // blindiKeys_small_ptr
    const largePtr: array<nat>   // blindiKeys_large_ptr
    const keyPtr: array<Key>
    var root: nat                // blindiKeys_root
    var validLen: nat
    ghost var shape: Shape

    ghost predicate Shaped()
      reads this
    {
      && 2 <= slots <= ptrArea && slots % 2 == 0 && validLen <= slots && keyPtr.Length == slots
      && blindiKeys.Length == smallPtr.Length == largePtr.Length == slots - 1
      && blindiKeys != smallPtr && blindiKeys != largePtr && smallPtr != largePtr
    }

    ghost function Tab(): (tab: Table)
      reads this, blindiKeys, smallPtr, largePtr, keyPtr
    {
      Table(blindiKeys[..], smallPtr[..], largePtr[..], keyPtr[..], ptrArea)
    }

    /** The arrays hold a trie, in slots without a gap, each used once. */
    ghost predicate Exact()
      reads this, blindiKeys, smallPtr, largePtr, keyPtr
    {
      && Laid(shape, Tab()) && Distinct(shape) && Leaves(shape) == validLen
      && Fills(Branches(shape), validLen - 1) && Fills(KeySlots(shape), validLen)
      && root == Ptr(shape, ptrArea) && WellFormed(TrieOf(shape, Tab()), keyBits)
    }

    ghost predicate Valid()
      reads this, blindiKeys, smallPtr, largePtr, keyPtr
    {
      Shaped() && if validLen == 0 then root == ptrArea else Exact()
    }

    ghost function T(): (t: Trie)
      requires Valid() && validLen > 0
      reads this, blindiKeys, smallPtr, largePtr, keyPtr
    {
      TrieOf(shape, Tab())
    }

    /** The stored keys in order. */
    ghost function Stored(): (ks: seq<Key>)
      requires Valid()
      reads this, blindiKeys, smallPtr, largePtr, keyPtr
    {
      if validLen == 0 then [] else Contents(T())
    }

    lemma ValidParts()
      requires Valid() && validLen > 0
      ensures Laid(shape, Tab()) && Distinct(shape) && Leaves(shape) == validLen == Size(T()) && root == Ptr(shape, ptrArea)
      ensures WellFormed(T(), keyBits) && T() == TrieOf(shape, Tab()) && Stored() == Contents(T()) && Tab().area == ptrArea
      ensures Tab() == Table(blindiKeys[..], smallPtr[..], largePtr[..], keyPtr[..], ptrArea)
    {
      hide Laid, Distinct, WellFormed, Contents, Fills;
      LeavesAreKeys(shape, Tab());
    }

    // ----------------------------------------------------------------------------------
    // Search
    // ----------------------------------------------------------------------------------

    /** Follows the bits of the query down to a key, and keeps the path. */
    method SearchFirstStage(q: Key) returns (path: seq<nat>)
      requires Valid() && validLen > 0 && |q| == keyBits
      ensures WellFormed(T(), |q|) && Descend(T(), q) < Leaves(shape)
      ensures path == PathTo(shape, ptrArea, Descend(T(), q))
    {
      hide *;
      ValidParts();
      ghost var tab, s, cur := Tab(), shape, shape;
      var pos := root;
      path := [root];
      DescendInside(cur, tab, q);
      while pos < ptrArea
        invariant Laid(cur, tab) && WellFormed(TrieOf(cur, tab), |q|) && pos == Ptr(cur, ptrArea)
        invariant |path| > 0 && path[|path| - 1] == pos
        invariant Descend(TrieOf(cur, tab), q) < Leaves(cur) && Descend(T(), q) < Leaves(s)
        invariant PathTo(s, ptrArea, Descend(T(), q)) == path[..|path| - 1] + PathTo(cur, ptrArea, Descend(TrieOf(cur, tab), q))
        decreases cur
      {
        BranchSlot(cur, tab);
        TowardTrie(cur, tab, q);
        var idx := blindiKeys[pos];
        ghost var c := Toward(cur, tab, q);
        StepDown(cur, tab, q, path, PathTo(s, ptrArea, Descend(T(), q)));
        if q[idx] {
          pos := largePtr[pos];
        } else {
          pos := smallPtr[pos];
        }
        path := path + [pos];
        cur := c;
      }
      AtKey(cur, tab, q);
      assert path[..|path| - 1] + [pos] == path;
    }

    /** Goes back up the path to the last branch whose bit is not above `diffPos`. */
    method SearchSecondStage(path: seq<nat>, diffPos: nat, ghost q: Key) returns (len: nat)
      requires Valid() && validLen > 0 && |q| == keyBits && Probed(T(), q, diffPos)
      requires Descend(T(), q) < Leaves(shape) && path == PathTo(shape, ptrArea, Descend(T(), q))
      ensures Laid(shape, Tab()) && BitsBelow(shape, Tab(), |q|) && len == Depth(shape, Tab(), q, diffPos)
    {
      hide *;
      ValidParts();
      ghost var tab := Tab();
      PartBits(shape, tab, q, diffPos);
      ghost var n := Depth(shape, tab, q, diffPos);
      var i := |path| - 2;
      while i >= 0
        invariant n - 1 <= i < |path| - 1
      {
        SlotsOnPath(shape, tab, Descend(T(), q), i);
        AroundAt(tab, path, n, diffPos, i);
        if blindiKeys[path[i]] <= diffPos {
          return i + 1;
        }
        i := i - 1;
      }
      return 0;
    }

    method BringLargestInSubtree(pos: nat, path: seq<nat>, ghost c: Shape) returns (largest: nat, newPath: seq<nat>)
      requires Laid(c, Tab()) && pos == Ptr(c, ptrArea) && |path| > 0 && path[|path| - 1] == pos
      ensures newPath == path[..|path| - 1] + PathTo(c, ptrArea, Leaves(c) - 1) && largest == newPath[|newPath| - 1]
    {
      hide *;
      TabArea();
      ghost var tab, cur, whole := Tab(), c, path[..|path| - 1] + PathTo(c, ptrArea, Leaves(c) - 1);
      BranchSlot(c, tab);
      newPath, largest := path, pos;
      if pos >= ptrArea {
        OnlyPath(c, tab, path);
        return;
      }
      while largePtr[largest] < ptrArea
        invariant Laid(cur, tab) && cur.Branch? && largest == cur.slot == Ptr(cur, ptrArea) && Slots(tab, largest) && largest < largePtr.Length
        invariant |newPath| > 0 && newPath[|newPath| - 1] == largest
        invariant whole == newPath[..|newPath| - 1] + PathTo(cur, ptrArea, Leaves(cur) - 1)
        decreases cur
      {
        EdgeStep(cur, tab, newPath, whole, true);
        BranchSlot(cur, tab);
        largest := largePtr[largest];
        newPath := newPath + [largest];
        cur := cur.large;
        BranchSlot(cur, tab);
      }
      EdgeStep(cur, tab, newPath, whole, true);
      BranchSlot(cur, tab);
      largest := largePtr[largest];
      newPath := newPath + [largest];
      OnlyPath(cur.large, tab, newPath);
    }

    method BringSmallestInSubtree(pos: nat, path: seq<nat>, ghost c: Shape) returns (smallest: nat, newPath: seq<nat>)
      requires Laid(c, Tab()) && pos == Ptr(c, ptrArea) && |path| > 0 && path[|path| - 1] == pos
      ensures newPath == path[..|path| - 1] + PathTo(c, ptrArea, 0) && smallest == newPath[|newPath| - 1]
    {
      hide *;
      TabArea();
      ghost var tab, cur, whole := Tab(), c, path[..|path| - 1] + PathTo(c, ptrArea, 0);
      BranchSlot(c, tab);
      newPath, smallest := path, pos;
      if pos >= ptrArea {
        OnlyPath(c, tab, path);
        return;
      }
      while smallPtr[smallest] < ptrArea
        invariant Laid(cur, tab) && cur.Branch? && smallest == cur.slot == Ptr(cur, ptrArea) && Slots(tab, smallest) && smallest < smallPtr.Length
        invariant |newPath| > 0 && newPath[|newPath| - 1] == smallest
        invariant whole == newPath[..|newPath| - 1] + PathTo(cur, ptrArea, 0)
        decreases cur
      {
        EdgeStep(cur, tab, newPath, whole, false);
        BranchSlot(cur, tab);
        smallest := smallPtr[smallest];
        newPath := newPath + [smallest];
        cur := cur.small;
        BranchSlot(cur, tab);
      }
      EdgeStep(cur, tab, newPath, whole, false);
      BranchSlot(cur, tab);
      smallest := smallPtr[smallest];
      newPath := newPath + [smallest];
      OnlyPath(cur.small, tab, newPath);
    }

    /** Whether the way to the part of the query never goes to the large side. */
    method CheckSmallerThanNode(path: seq<nat>, len: nat, diffPos: nat, ghost q: Key) returns (smallerThanNode: bool)
      requires Valid() && validLen > 0 && |q| == keyBits && Probed(T(), q, diffPos)
      requires Descend(T(), q) < Leaves(shape) && path == PathTo(shape, ptrArea, Descend(T(), q))
      requires Laid(shape, Tab()) && BitsBelow(shape, Tab(), |q|) && len == Depth(shape, Tab(), q, diffPos)
      ensures smallerThanNode <==> Offset(shape, Tab(), q, diffPos) == 0
    {
      hide *;
      ValidParts();
      ghost var tab := Tab();
      TurnAbovePart(shape, tab, q, diffPos);
      PartOnPaths(shape, tab, q, diffPos);
      ghost var o := Offset(shape, tab, q, diffPos);
      ghost var w := PathTo(shape, ptrArea, o);
      if len == 0 {
        return true;
      }
      var l := len;
      while l > 0
        invariant 0 <= l <= len && (o > 0 ==> PreviousTurn(shape, o) < l)
      {
        TurnsAbove(shape, tab, w, o, l - 1, path, len);
        if largePtr[path[l - 1]] == path[l] {
          return false;
        }
        l := l - 1;
      }
      return true;
    }

    /** From the part of the query to its predecessor: the last key of the part, or the last key in
        front of it, or the first key if all are larger. */
    method BringItemEdgeSubtree(largeSmall: bool, smallerThanNode: bool, path: seq<nat>, len: nat, diffPos: nat, ghost q: Key)
      returns (pos: nat, newPath: seq<nat>)
      requires Valid() && validLen > 0 && |q| == keyBits && Probed(T(), q, diffPos) && largeSmall == q[diffPos]
      requires Descend(T(), q) < Leaves(shape) && path == PathTo(shape, ptrArea, Descend(T(), q))
      requires Laid(shape, Tab()) && BitsBelow(shape, Tab(), |q|) && len == Depth(shape, Tab(), q, diffPos)
      requires smallerThanNode <==> !largeSmall && Offset(shape, Tab(), q, diffPos) == 0
      ensures smallerThanNode <==> Rank(T(), q, diffPos) == 0
      ensures var i := if smallerThanNode then 0 else Rank(T(), q, diffPos) - 1;
              0 <= i < Leaves(shape) && newPath == PathTo(shape, ptrArea, i) && pos == newPath[|newPath| - 1]
    {
      hide *;
      ValidParts();
      ghost var tab := Tab();
      ghost var part, o := Part(shape, tab, q, diffPos), Offset(shape, tab, q, diffPos);
      ProbedBit(T(), q, diffPos);
      PartRank(shape, tab, q, diffPos);
      PartOnPaths(shape, tab, q, diffPos);
      var toPart := path[..len + 1];
      FrontOf(path, len);
      if largeSmall {
        PathToPart(shape, tab, q, diffPos, Leaves(part) - 1);
        pos, newPath := BringLargestInSubtree(toPart[len], toPart, part);
        return;
      }
      if smallerThanNode {
        PathToPart(shape, tab, q, diffPos, 0);
        pos, newPath := BringSmallestInSubtree(toPart[len], toPart, part);
        return;
      }
      pos, newPath := BringItemBefore(path, len, diffPos, q);
    }

    /** Up to where the way to the part comes from the large side, and from there to the last key of the
        small side. */
    method BringItemBefore(path: seq<nat>, len: nat, diffPos: nat, ghost q: Key) returns (pos: nat, newPath: seq<nat>)
      requires Valid() && validLen > 0 && |q| == keyBits && Probed(T(), q, diffPos)
      requires Descend(T(), q) < Leaves(shape) && path == PathTo(shape, ptrArea, Descend(T(), q))
      requires Laid(shape, Tab()) && BitsBelow(shape, Tab(), |q|) && len == Depth(shape, Tab(), q, diffPos)
      requires 0 < Offset(shape, Tab(), q, diffPos) < Leaves(shape)
      ensures newPath == PathTo(shape, ptrArea, Offset(shape, Tab(), q, diffPos) - 1) && pos == newPath[|newPath| - 1]
    {
      hide *;
      ValidParts();
      ghost var tab := Tab();
      ghost var o := Offset(shape, tab, q, diffPos);
      PartOnPaths(shape, tab, q, diffPos);
      TurnAbovePart(shape, tab, q, diffPos);
      PreviousPath(shape, tab, o);
      ghost var w, j, c := PathTo(shape, ptrArea, o), PreviousTurn(shape, o), PreviousPart(shape, o);
      var l := len;
      TurnsAbove(shape, tab, w, o, l - 1, path, len);
      while largePtr[path[l - 1]] != path[l]
        invariant j + 1 <= l <= len && path[l - 1] < largePtr.Length
        decreases l
      {
        TurnsAbove(shape, tab, w, o, l - 1, path, len);
        l := l - 1;
        TurnsAbove(shape, tab, w, o, l - 1, path, len);
      }
      TurnsAbove(shape, tab, w, o, l - 1, path, len);
      var over := path[..l] + [smallPtr[path[l - 1]]];
      assert over[..|over| - 1] == w[..j + 1];
      pos, newPath := BringLargestInSubtree(over[l], over, c);
    }

    /** Point search reports a hit exactly when the key is stored; predecessor search returns the slot
        of the largest key not greater than the query, or flags that there is none. */
    method SearchBlindiNode(q: Key, predecessor: bool)
      returns (pos: nat, hit: bool, smallerThanNode: bool, path: seq<nat>, ghost rank: nat)
      requires Valid() && validLen > 0 && |q| == keyBits
      ensures pos < keyPtr.Length && (hit <==> q in Stored())
      ensures hit ==> keyPtr[pos] == q && !smallerThanNode
      ensures Uniform(Stored(), keyBits)
      ensures hit ==> Descend(T(), q) < Leaves(shape) && path == PathTo(shape, ptrArea, Descend(T(), q)) && Stored()[Descend(T(), q)] == q
      ensures predecessor ==> IsRank(Stored(), keyBits, q, rank) && (smallerThanNode <==> rank == 0)
      ensures predecessor ==> keyPtr[pos] == Stored()[if rank == 0 then 0 else rank - 1]
      ensures validLen == Leaves(shape) == |Stored()| && |path| > 0 && path[|path| - 1] == ptrArea + pos
      ensures !predecessor ==> !smallerThanNode && Descend(T(), q) < Leaves(shape) && path == PathTo(shape, ptrArea, Descend(T(), q))
      ensures predecessor ==> rank <= Leaves(shape) && path == PathTo(shape, ptrArea, if rank == 0 then 0 else rank - 1)
    {
      hide *;
      ValidParts();
      ghost var tab := Tab();
      WellFormedUniform(T(), keyBits);
      smallerThanNode := false;
      path := SearchFirstStage(q);
      ghost var i := Descend(T(), q);
      PathEnds(shape, tab, i);
      KeyAtPosition(shape, tab, i);
      DescendHits(T(), q);
      pos := path[|path| - 1] - ptrArea;
      var dbKey := keyPtr[pos];
      assert dbKey == Stored()[i];
      KeyLength(Stored(), keyBits, i);
      var diffPos, largeSmall := Diff(q, dbKey), Less(dbKey, q);
      hit := q == dbKey;
      if hit {
        Sorted(T(), keyBits);
        HitIsRank(Stored(), keyBits, q, i);
        rank := i + 1;
        return;
      }
      rank := 0;
      if !predecessor {
        return;
      }
      DescendProbes(T(), q);
      ProbeBit(q, dbKey);
      var len := SearchSecondStage(path, diffPos, q);
      if !largeSmall {
        smallerThanNode := CheckSmallerThanNode(path, len, diffPos, q);
      }
      pos, path := BringItemEdgeSubtree(largeSmall, smallerThanNode, path, len, diffPos, q);
      rank := Rank(T(), q, diffPos);
      RankCorrect(T(), q, diffPos);
      ghost var p := if smallerThanNode then 0 else rank - 1;
      PathEnds(shape, tab, p);
      KeyAtPosition(shape, tab, p);
      pos := pos - ptrArea;
    }

    /** The slot of the largest key. */
    method GetMaxPosNode() returns (pos: nat)
      requires Valid() && validLen > 0
      ensures validLen == Leaves(shape) == |Stored()| && pos == KeySlot(shape, validLen - 1)
      ensures pos < keyPtr.Length && keyPtr[pos] == Stored()[validLen - 1]
    {
      hide *;
      ValidParts();
      ghost var tab := Tab();
      SlotOfPath(shape, tab, validLen - 1);
      KeyAtPosition(shape, tab, validLen - 1);
      if validLen == 1 {
        FirstSlot();
        return 0;
      }
      var largest, _ := BringLargestInSubtree(root, [root], shape);
      pos := largest - ptrArea;
    }

    lemma FirstSlot()
      requires Valid() && validLen == 1
      ensures Leaves(shape) == 1 && KeySlot(shape, 0) == 0
    {
      LeavesAreKeys(shape, Tab());
    }

    /** `lower_bound` in a leaf: from the outcome of a predecessor search to the first key that is not
        below the query, or to the end if there is none. */
    method LowerBound(q: Key) returns (end: bool, pos: nat, path: seq<nat>, ghost at: nat)
      requires Valid() && validLen > 0 && |q| == keyBits
      ensures Uniform(Stored(), keyBits) && at <= validLen == Leaves(shape) == |Stored()|
      ensures forall i :: 0 <= i < at ==> Less(Stored()[i], q)
      ensures forall i :: at <= i < |Stored()| ==> !Less(Stored()[i], q)
      ensures end <==> at == validLen
      ensures !end ==> pos < keyPtr.Length && keyPtr[pos] == Stored()[at] && path == PathTo(shape, ptrArea, at)
      ensures end <==> forall i :: 0 <= i < |Stored()| ==> Less(Stored()[i], q)
      ensures !end ==> keyPtr[pos] in Stored() && |keyPtr[pos]| == |q| && !Less(keyPtr[pos], q)
      ensures !end ==> forall i :: 0 <= i < |Stored()| && Less(Stored()[i], keyPtr[pos]) ==> Less(Stored()[i], q)
    {
      hide *;
      ghost var rank;
      var hit, smallerThanNode;
      pos, hit, smallerThanNode, path, rank := SearchBlindiNode(q, true);
      ValidParts();
      Sorted(T(), keyBits);
      ghost var s := Stored();
      at := if hit then rank - 1 else rank;
      FirstFrom(s, keyBits, q, at);
      FromRank(s, keyBits, q, rank, hit);
      RankInside(s, keyBits, q, rank);
      if hit || smallerThanNode {
        return false, pos, path, at;
      }
      SlotOfPath(shape, Tab(), rank - 1);
      var last := GetMaxPosNode();
      if pos == last {
        OnlyOnce(s, keyBits, rank - 1, validLen - 1);
        return true, pos, path, at;
      }
      pos, path := BringNextItem(path, rank);
      SlotOfPath(shape, Tab(), rank);
      KeyAtPosition(shape, Tab(), rank);
      pos := pos - ptrArea;
      end := false;
    }

    lemma TabArea()
      ensures Tab() == Table(blindiKeys[..], smallPtr[..], largePtr[..], keyPtr[..], ptrArea)
    {
    }

    /** From a key to the next one in order; from the bare root to the first key. */
    method BringNextItem(path: seq<nat>, ghost next: nat) returns (pos: nat, newPath: seq<nat>)
      requires Valid() && validLen > 0 && next < Leaves(shape)
      requires if next == 0 then path == [root] else path == PathTo(shape, ptrArea, next - 1)
      ensures newPath == PathTo(shape, ptrArea, next) && pos == newPath[|newPath| - 1]
    {
      hide *;
      ValidParts();
      ghost var tab := Tab();
      if |path| == 1 {
        PathOfOne(shape, ptrArea, if next == 0 then 0 else next - 1);
        EmptyFront(path, PathTo(shape, ptrArea, 0));
        pos, newPath := BringSmallestInSubtree(path[0], path, shape);
        return;
      }
      NextPath(shape, tab, next - 1);
      ghost var j, c := NextTurn(shape, next - 1), NextPart(shape, next - 1);
      var len := |path|;
      TurnAt(tab, path, j, c, len - 2, true);
      while smallPtr[path[len - 2]] != path[len - 1]
        invariant j + 2 <= len <= |path| && path[len - 2] < smallPtr.Length
        decreases len
      {
        TurnAt(tab, path, j, c, len - 2, true);
        len := len - 1;
        TurnAt(tab, path, j, c, len - 2, true);
        RootUnreferenced(shape, tab, next - 1, len - 2);
        if smallPtr[path[len - 2]] == root {
          break;
        }
      }
      TurnAt(tab, path, j, c, len - 2, true);
      var over := path[..len - 1] + [largePtr[path[len - 2]]];
      assert over[..|over| - 1] == path[..j + 1];
      pos, newPath := BringSmallestInSubtree(over[len - 1], over, c);
    }

    /** From a key to the previous one in order; from the bare root to the last key. */
    method BringPreviousItem(path: seq<nat>, ghost previous: nat) returns (pos: nat, newPath: seq<nat>)
      requires Valid() && validLen > 0 && previous < Leaves(shape)
      requires if previous == Leaves(shape) - 1 then path == [root] else path == PathTo(shape, ptrArea, previous + 1)
      ensures newPath == PathTo(shape, ptrArea, previous) && pos == newPath[|newPath| - 1]
    {
      hide *;
      ValidParts();
      ghost var tab := Tab();
      if |path| == 1 {
        PathOfOne(shape, ptrArea, if previous + 1 == Leaves(shape) then previous else previous + 1);
        EmptyFront(path, PathTo(shape, ptrArea, Leaves(shape) - 1));
        pos, newPath := BringLargestInSubtree(path[0], path, shape);
        return;
      }
      PreviousPath(shape, tab, previous + 1);
      ghost var j, c := PreviousTurn(shape, previous + 1), PreviousPart(shape, previous + 1);
      var len := |path|;
      TurnAt(tab, path, j, c, len - 2, false);
      while largePtr[path[len - 2]] != path[len - 1]
        invariant j + 2 <= len <= |path| && path[len - 2] < largePtr.Length
        decreases len
      {
        TurnAt(tab, path, j, c, len - 2, false);
        len := len - 1;
        TurnAt(tab, path, j, c, len - 2, false);
        RootUnreferenced(shape, tab, previous + 1, len - 2);
        if largePtr[path[len - 2]] == root {
          break;
        }
      }
      TurnAt(tab, path, j, c, len - 2, false);
      var over := path[..len - 1] + [smallPtr[path[len - 2]]];
      assert over[..|over| - 1] == path[..j + 1];
      pos, newPath := BringLargestInSubtree(over[len - 1], over, c);
    }

    /** The key slots in the order of the keys. */
    method BringSortedItems(sortedPositions: array<nat>)
      requires Valid() && validLen > 0 && sortedPositions.Length >= validLen
      requires {sortedPositions} !! {blindiKeys, smallPtr, largePtr}
      modifies sortedPositions
      ensures validLen == |Stored()|
      ensures forall i :: 0 <= i < validLen ==> sortedPositions[i] < keyPtr.Length && keyPtr[sortedPositions[i]] == Stored()[i]
    {
      hide *;
      ValidParts();
      ghost var s, tab := shape, Tab();
      var pos, path := BringNextItem([root], 0);
      SlotOfPath(s, tab, 0);
      sortedPositions[0] := pos - ptrArea;
      var i := 1;
      while i < validLen
        invariant 1 <= i <= validLen && path == PathTo(s, ptrArea, i - 1)
        invariant Valid() && shape == s && Tab() == tab && tab.area == ptrArea && Leaves(s) == validLen
        invariant forall k :: 0 <= k < i ==> sortedPositions[k] == KeySlot(s, k)
      {
        pos, path := BringNextItem(path, i);
        ValidParts();
        SlotOfPath(s, tab, i);
        sortedPositions[i] := pos - ptrArea;
        i := i + 1;
      }
      ValidParts();
      forall k | 0 <= k < validLen
        ensures sortedPositions[k] < keyPtr.Length && keyPtr[sortedPositions[k]] == Stored()[k]
      {
        KeyAtPosition(s, tab, k);
      }
    }

    // ----------------------------------------------------------------------------------
    // Insertion
    // ----------------------------------------------------------------------------------

    method FirstInsert(q: Key)
      requires Valid() && validLen == 0 && |q| == keyBits
      modifies this, blindiKeys, smallPtr, largePtr, keyPtr
      ensures Valid() && Stored() == [q]
    {
      blindiKeys[0] := 0;
      keyPtr[0] := q;
      smallPtr[0], largePtr[0] := ptrArea, ptrArea;
      validLen := 1;
      shape := KeyAt(0);
      assert Tab().keys[0] == q && TrieOf(shape, Tab()) == Leaf(q);
      assert Fills(Branches(shape), 0) && Fills(KeySlots(shape), 1);
    }

    /** Fills the next free slots with the new branch and the new key, and hangs the branch in above the
        part of the query. */
    method Insert2BlindiNodeInPosition(q: Key, diffPos: nat, largeSmall: bool, path: seq<nat>, len: nat)
      requires Valid() && 0 < validLen < slots && |q| == keyBits && Probed(T(), q, diffPos) && largeSmall == q[diffPos]
      requires Descend(T(), q) < Leaves(shape) && path == PathTo(shape, ptrArea, Descend(T(), q))
      requires Laid(shape, Tab()) && BitsBelow(shape, Tab(), |q|) && len == Depth(shape, Tab(), q, diffPos)
      modifies this, blindiKeys, smallPtr, largePtr, keyPtr
      ensures Valid() && validLen == old(validLen) + 1
      ensures T() == Insert(old(T()), q, diffPos)
      ensures Stored() == InsertedAt(old(Stored()), Rank(old(T()), q, diffPos), q)
    {
      hide *;
      ValidParts();
      ValidSlots();
      ProbedBit(T(), q, diffPos);
      ghost var s, tab, b, k, t := shape, Tab(), validLen - 1, validLen, T();
      ghost var u, part := InsertShape(s, tab, q, diffPos, b, k), Ptr(Part(s, tab, q, diffPos), ptrArea);
      PartOnPaths(s, tab, q, diffPos);
      ghost var par := b;
      if len > 0 {
        AbovePart(s, tab, q, diffPos);
        LastOfFront(path, len);
        par := path[len - 1];
      }
      SlotsInside(s, tab);
      InsertCorrect(t, q, diffPos);
      WholeRoot(s, tab, q, diffPos);
      LinkNew(q, diffPos, largeSmall, path, len);
      InsertEffect(s, tab, Tab(), q, diffPos, b, k, part, par, len > 0);
      InsertLaid(s, tab, Tab(), q, diffPos, b, k, par);
      InsertSlots(s, tab, q, diffPos, b, k);
      OneMore(s, u, b, k);
      TabArea();
      shape := u;
      TabArea();
      NowValid();
    }

    /** The writes of an insertion. */
    method LinkNew(q: Key, diffPos: nat, largeSmall: bool, path: seq<nat>, len: nat)
      requires 2 <= slots <= ptrArea && 0 < validLen < slots && keyPtr.Length == slots
      requires blindiKeys.Length == smallPtr.Length == largePtr.Length == slots - 1
      requires blindiKeys != smallPtr && blindiKeys != largePtr && smallPtr != largePtr
      requires diffPos < |q| && largeSmall == q[diffPos] && len < |path|
      requires len == 0 ==> path[0] == root
      requires len > 0 ==> path[len - 1] < validLen - 1 && blindiKeys[path[len - 1]] < |q|
      requires len > 0 ==> if q[blindiKeys[path[len - 1]]] then largePtr[path[len - 1]] == path[len]
                           else largePtr[path[len - 1]] != path[len] && smallPtr[path[len - 1]] == path[len]
      modifies this`root, this`validLen, blindiKeys, smallPtr, largePtr, keyPtr
      ensures validLen == old(validLen) + 1 && root == if len == 0 then old(validLen) - 1 else old(root)
      ensures var b := old(validLen) - 1;
              InsertWrites(old(Tab()), Tab(), q, diffPos, b, b + 1, path[len], if len > 0 then path[len - 1] else b, len > 0)
    {
      keyPtr[validLen] := q;
      blindiKeys[validLen - 1] := diffPos;
      var connect := path[0];
      if len > 0 {
        var position := path[len - 1];
        if largePtr[position] == path[len] {
          connect := largePtr[position];
          largePtr[position] := validLen - 1;
        } else {
          connect := smallPtr[position];
          smallPtr[position] := validLen - 1;
        }
      } else {
        root := validLen - 1;
      }
      if largeSmall {
        smallPtr[validLen - 1], largePtr[validLen - 1] := connect, ptrArea + validLen;
      } else {
        smallPtr[validLen - 1], largePtr[validLen - 1] := ptrArea + validLen, connect;
      }
      validLen := validLen + 1;
    }

    /** Inserts a key that is not stored, unless the node is full. */
    method Insert2BlindiNodeWithKey(q: Key) returns (result: InsertResult)
      requires Valid() && |q| == keyBits
      modifies this, blindiKeys, smallPtr, largePtr, keyPtr
      ensures Valid()
      ensures result == if old(validLen) == slots then InsertOverflow
                        else if q in old(Stored()) then InsertDuplicatedKey
                        else InsertSuccess
      ensures result != InsertSuccess ==> Stored() == old(Stored())
      ensures Uniform(old(Stored()), keyBits)
      ensures result == InsertSuccess ==>
                exists r :: IsRank(old(Stored()), keyBits, q, r) && Stored() == InsertedAt(old(Stored()), r, q)
    {
      hide Laid, Distinct, WellFormed, Contents, Branches, KeySlots, Fills, Tab, TrieOf, PathTo, Probed, Descend, Rank, Insert;
      ghost var before := Stored();
      if validLen == slots {
        ValidParts();
        WellFormedUniform(T(), keyBits);
        return InsertOverflow;
      }
      if validLen == 0 {
        FirstInsert(q);
        assert IsRank(before, keyBits, q, 0) && Stored() == InsertedAt(before, 0, q);
        return InsertSuccess;
      }
      ValidParts();
      WellFormedUniform(T(), keyBits);
      var hit, diffPos, largeSmall, path, len := SearchForInsert(q);
      if hit {
        return InsertDuplicatedKey;
      }
      ghost var r := Rank(T(), q, diffPos);
      RankCorrect(T(), q, diffPos);
      Insert2BlindiNodeInPosition(q, diffPos, largeSmall, path, len);
      assert IsRank(before, keyBits, q, r) && Stored() == InsertedAt(before, r, q);
      return InsertSuccess;
    }

    /** The search as insertion uses it: it stops at the part of the query. */
    method SearchForInsert(q: Key) returns (hit: bool, diffPos: nat, largeSmall: bool, path: seq<nat>, len: nat)
      requires Valid() && validLen > 0 && |q| == keyBits
      ensures hit <==> q in Stored()
      ensures Descend(T(), q) < Leaves(shape)
      ensures !hit ==> Probed(T(), q, diffPos) && diffPos < |q| && largeSmall == q[diffPos]
      ensures !hit ==> path == PathTo(shape, ptrArea, Descend(T(), q))
      ensures !hit ==> Laid(shape, Tab()) && BitsBelow(shape, Tab(), |q|) && len == Depth(shape, Tab(), q, diffPos)
    {
      hide *;
      ValidParts();
      ghost var tab := Tab();
      WellFormedUniform(T(), keyBits);
      path := SearchFirstStage(q);
      ghost var i := Descend(T(), q);
      PathEnds(shape, tab, i);
      KeyAtPosition(shape, tab, i);
      DescendHits(T(), q);
      var dbKey := keyPtr[path[|path| - 1] - ptrArea];
      assert dbKey == Stored()[i];
      KeyLength(Stored(), keyBits, i);
      diffPos, hit, largeSmall, len := Diff(q, dbKey), q == dbKey, Less(dbKey, q), 0;
      if hit {
        return;
      }
      DescendProbes(T(), q);
      ProbeBit(q, dbKey);
      len := SearchSecondStage(path, diffPos, q);
    }

    // ----------------------------------------------------------------------------------
    // Removal
    // ----------------------------------------------------------------------------------

    /** Points past the branch above the key to the other side of it. */
    method Unlink(path: seq<nat>, ghost q: Key)
      requires Valid() && 2 <= validLen && |q| == keyBits
      requires Descend(T(), q) < Leaves(shape) && path == PathTo(shape, ptrArea, Descend(T(), q))
      modifies this`root, this`shape, smallPtr, largePtr
      ensures Laid(old(shape), old(Tab())) && BitsBelow(old(shape), old(Tab()), |q|) && old(shape).Branch?
      ensures shape == RemoveShape(old(shape), old(Tab()), q) && Laid(shape, Tab()) && root == Ptr(shape, ptrArea)
      ensures old(T()).Node? && Descend(old(T()), q) < Size(old(T())) && TrieOf(shape, Tab()) == Remove(old(T()), Descend(old(T()), q))
      ensures |path| >= 2 && path[|path| - 2] == LastBranch(old(shape), old(Tab()), q).slot
      ensures path[|path| - 1] == ptrArea + Toward(LastBranch(old(shape), old(Tab()), q), old(Tab()), q).slot
    {
      hide *;
      ValidParts();
      ValidSlots();
      ghost var s, tab, t := shape, Tab(), T();
      BranchSlot(s, tab);
      RemovePath(s, tab, q);
      LastPointers(s, tab, q);
      SlotsInside(s, tab);
      ghost var last := LastBranch(s, tab, q);
      BranchSlot(Toward(last, tab, q), tab);
      var blindiKeyPos, keyPos := path[|path| - 2], path[|path| - 1];
      var sibling := if smallPtr[blindiKeyPos] == keyPos then largePtr[blindiKeyPos] else smallPtr[blindiKeyPos];
      ghost var par := s.slot;
      if root == blindiKeyPos {
        root := sibling;
        TabArea();
        SameTable(s, tab, par);
      } else {
        par := path[|path| - 3];
        if smallPtr[path[|path| - 3]] == blindiKeyPos {
          smallPtr[path[|path| - 3]] := sibling;
        } else {
          largePtr[path[|path| - 3]] := sibling;
        }
        TabArea();
        Redirects(s, tab, Tab(), q, par, sibling);
      }
      RemoveLaid(s, tab, Tab(), q, par);
      ghost var u := RemoveShape(s, tab, q);
      TabArea();
      shape := u;
      TabArea();
    }

    /** Lets the one pointer to a moved slot follow. */
    method RedirectPointer(from: nat, end: nat, n: nat)
      requires n <= smallPtr.Length == largePtr.Length && smallPtr != largePtr && Once(smallPtr[..], largePtr[..], n, n, from)
      modifies smallPtr, largePtr
      ensures forall j :: 0 <= j < n ==> smallPtr[j] == Moved(old(smallPtr[j]), from, end) && largePtr[j] == Moved(old(largePtr[j]), from, end)
    {
      var i: int := n - 1;
      while i >= 0
        invariant -1 <= i < n
        invariant smallPtr[..] == old(smallPtr[..]) && largePtr[..] == old(largePtr[..])
        invariant forall j :: i < j < n ==> smallPtr[j] != from && largePtr[j] != from
      {
        if largePtr[i] == from {
          largePtr[i] := end;
          break;
        }
        if smallPtr[i] == from {
          smallPtr[i] := end;
          break;
        }
        i := i - 1;
      }
    }

    /** Moves the last key and the last branch to the slots that have become free, and lets the pointers
        to them follow.  `n` is the number of keys left. */
    method MoveSlots(k: nat, b: nat, n: nat)
      requires 0 < n < slots <= ptrArea && k <= n && b < n && keyPtr.Length == slots
      requires blindiKeys.Length == smallPtr.Length == largePtr.Length == slots - 1
      requires blindiKeys != smallPtr && blindiKeys != largePtr && smallPtr != largePtr
      requires Once(smallPtr[..], largePtr[..], n, b, ptrArea + n) && Once(smallPtr[..], largePtr[..], n, b, n - 1)
      requires if n == 1 then root == ptrArea + (1 - k) else root < n && root != b
      modifies this`root, blindiKeys, smallPtr, largePtr, keyPtr
      ensures root == MovedPtr(old(root), ptrArea, n, k, n - 1, b)
      ensures forall j :: 0 <= j < n ==> keyPtr[j] == old(keyPtr[..])[Moved(j, k, n)]
      ensures forall j :: 0 <= j < n - 1 ==> blindiKeys[j] == old(blindiKeys[..])[Moved(j, b, n - 1)]
      ensures forall j :: 0 <= j < n - 1 ==> smallPtr[j] == MovedPtr(old(smallPtr[..])[Moved(j, b, n - 1)], ptrArea, n, k, n - 1, b)
      ensures forall j :: 0 <= j < n - 1 ==> largePtr[j] == MovedPtr(old(largePtr[..])[Moved(j, b, n - 1)], ptrArea, n, k, n - 1, b)
    {
      hide *;
      ghost var small, large, bits, keys := smallPtr[..], largePtr[..], blindiKeys[..], keyPtr[..];
      OnceCopied(small, large, n, b, ptrArea + n);
      OnceCopied(small, large, n, b, n - 1);
      CopyLast(k, b, n);
      FollowMoves(k, b, n);
      if b < n - 1 && root == n - 1 {
        root := b;
      }
      if n == 1 {
        root := ptrArea;
      }
      MovedRoot(old(root), ptrArea, n, k, b);
      MovedBelow(k, n);
      MovedBelow(b, n - 1);
      forall j | 0 <= j < n
        ensures keys[k := keys[n]][j] == keys[Moved(j, k, n)]
      {
        CopiedAt(keys, k, n, j);
      }
      ghost var last: nat := n - 1;
      forall j | 0 <= j < last
        ensures bits[b := bits[last]][j] == bits[Moved(j, b, last)]
        ensures small[b := small[last]][j] == small[Moved(j, b, last)] && large[b := large[last]][j] == large[Moved(j, b, last)]
      {
        CopiedAt(bits, b, last, j);
        CopiedAt(small, b, last, j);
        CopiedAt(large, b, last, j);
      }
    }

    method CopyLast(k: nat, b: nat, n: nat)
      requires 0 < n < slots && k <= n && b < n && keyPtr.Length == slots
      requires blindiKeys.Length == smallPtr.Length == largePtr.Length == slots - 1
      requires blindiKeys != smallPtr && blindiKeys != largePtr && smallPtr != largePtr
      modifies blindiKeys, smallPtr, largePtr, keyPtr
      ensures keyPtr[..] == old(keyPtr[..])[k := old(keyPtr[..])[n]]
      ensures blindiKeys[..] == old(blindiKeys[..])[b := old(blindiKeys[..])[n - 1]]
      ensures smallPtr[..] == old(smallPtr[..])[b := old(smallPtr[..])[n - 1]]
      ensures largePtr[..] == old(largePtr[..])[b := old(largePtr[..])[n - 1]]
    {
      if k < n {
        keyPtr[k] := keyPtr[n];
      }
      if b < n - 1 {
        blindiKeys[b] := blindiKeys[n - 1];
        smallPtr[b] := smallPtr[n - 1];
        largePtr[b] := largePtr[n - 1];
      }
    }

    method FollowMoves(k: nat, b: nat, n: nat)
      requires 0 < n < slots <= ptrArea && k <= n && b < n
      requires smallPtr.Length == largePtr.Length == slots - 1 && smallPtr != largePtr
      requires Once(smallPtr[..], largePtr[..], n - 1, n - 1, ptrArea + n) && Once(smallPtr[..], largePtr[..], n - 1, n - 1, n - 1)
      modifies smallPtr, largePtr
      ensures forall j :: 0 <= j < n - 1 ==> smallPtr[j] == MovedPtr(old(smallPtr[..])[j], ptrArea, n, k, n - 1, b)
      ensures forall j :: 0 <= j < n - 1 ==> largePtr[j] == MovedPtr(old(largePtr[..])[j], ptrArea, n, k, n - 1, b)
    {
      hide Once;
      ghost var small, large := smallPtr[..], largePtr[..];
      if k < n {
        RedirectPointer(ptrArea + n, ptrArea + k, n - 1);
      }
      OnceKept(small, large, smallPtr[..], largePtr[..], n - 1, n - 1, ptrArea + n, ptrArea + k);
      if b < n - 1 {
        RedirectPointer(n - 1, b, n - 1);
      }
    }

    /** Removes the key that the query leads to.  The last key and the last branch move to the freed
        slots. */
    method RemoveFromBlindiNodeInPosition(path: seq<nat>, ghost q: Key) returns (result: RemoveResult)
      requires Valid() && 0 < validLen && |q| == keyBits
      requires Descend(T(), q) < Leaves(shape) && path == PathTo(shape, ptrArea, Descend(T(), q))
      modifies this, blindiKeys, smallPtr, largePtr, keyPtr
      ensures Valid() && validLen == old(validLen) - 1
      ensures Descend(old(T()), q) < |old(Stored())| && Stored() == RemovedAt(old(Stored()), Descend(old(T()), q))
      ensures result == if validLen == 0 then RemoveNodeEmpty else RemoveSuccess
    {
      hide *;
      ValidParts();
      ValidSlots();
      ghost var s, tab, t := shape, Tab(), T();
      if validLen == 1 {
        EmptiesOut(s, tab, q);
        validLen, root := 0, ptrArea;
        NowEmpty();
        return RemoveNodeEmpty;
      }
      Unlink(path, q);
      RemoveSlots(s, tab, q);
      RemoveCorrect(t, Descend(t, q), keyBits);
      TabArea();
      validLen := validLen - 1;
      TabArea();
      var k, b := path[|path| - 1] - ptrArea, path[|path| - 2];
      FreedSlots(Branches(s), Branches(shape), validLen, b);
      FreedSlots(KeySlots(s), KeySlots(shape), validLen + 1, k);
      Compact(k, b, Remove(t, Descend(t, q)));
      return RemoveSuccess;
    }

    /** Closes the gaps that an unlinked key and branch have left. */
    method Compact(k: nat, b: nat, ghost t: Trie)
      requires 2 <= slots <= ptrArea && slots % 2 == 0 && 0 < validLen < slots && keyPtr.Length == slots && k <= validLen && b < validLen
      requires blindiKeys.Length == smallPtr.Length == largePtr.Length == slots - 1
      requires blindiKeys != smallPtr && blindiKeys != largePtr && smallPtr != largePtr
      requires Laid(shape, Tab()) && Distinct(shape) && Leaves(shape) == validLen && root == Ptr(shape, ptrArea)
      requires TrieOf(shape, Tab()) == t && WellFormed(t, keyBits)
      requires forall i: nat :: i in Branches(shape) <==> i < validLen && i != b
      requires forall i: nat :: i in KeySlots(shape) <==> i < validLen + 1 && i != k
      modifies this`root, this`shape, blindiKeys, smallPtr, largePtr, keyPtr
      ensures Valid() && T() == t && Stored() == Contents(t)
    {
      hide *;
      TabArea();
      ghost var n, u, tab := validLen, shape, Tab();
      OnceInTrie(u, tab, n, b, ptrArea + n);
      OnceInTrie(u, tab, n, b, n - 1);
      RootPlace(u, tab, n, k, b);
      MoveSlots(k, b, validLen);
      ghost var v := RenameShape(u, n, k, n - 1, b);
      TabArea();
      MovedBelow(k, n);
      MovedBelow(b, n - 1);
      MovedTable(u, tab, Tab(), n, k, b);
      RenameLaid(u, tab, Tab(), n, k, n - 1, b);
      RenameSlots(u, n, k, n - 1, b);
      Refilled(Branches(u), Branches(v), n - 1, b);
      Refilled(KeySlots(u), KeySlots(v), n, k);
      shape := v;
      TabArea();
      NowValid();
    }

    lemma NowEmpty()
      requires 2 <= slots <= ptrArea && slots % 2 == 0 && validLen == 0 && keyPtr.Length == slots && root == ptrArea
      requires blindiKeys.Length == smallPtr.Length == largePtr.Length == slots - 1
      requires blindiKeys != smallPtr && blindiKeys != largePtr && smallPtr != largePtr
      ensures Valid() && Stored() == []
    {
    }

    /** Removes exactly the given key, and reports when the node runs empty or under half full. */
    method RemoveFromBlindiNodeWithKey(q: Key) returns (result: RemoveResult)
      requires Valid() && |q| == keyBits && 0 < validLen
      modifies this, blindiKeys, smallPtr, largePtr, keyPtr
      ensures Valid()
      ensures result == RemoveKeyNotFound <==> q !in old(Stored())
      ensures result == RemoveKeyNotFound ==> Stored() == old(Stored())
      ensures result != RemoveKeyNotFound ==>
                exists i :: 0 <= i < |old(Stored())| && old(Stored())[i] == q && Stored() == RemovedAt(old(Stored()), i)
      ensures result == RemoveNodeEmpty <==> result != RemoveKeyNotFound && validLen == 0
      ensures result == RemoveUnderflow ==> 0 < validLen < slots / 2
      ensures result == RemoveSuccess ==> slots / 2 <= validLen
    {
      hide Laid, Distinct, WellFormed, Contents, Branches, KeySlots, Fills, Tab, TrieOf, PathTo, Probed, Descend, Rank, Remove;
      ghost var before := Stored();
      var _, hit, _, path, _ := SearchBlindiNode(q, false);
      if !hit {
        return RemoveKeyNotFound;
      }
      ghost var i := Descend(T(), q);
      result := RemoveFromBlindiNodeInPosition(path, q);
      assert before[i] == q && Stored() == RemovedAt(before, i);
      if validLen < slots / 2 && result == RemoveSuccess {
        return RemoveUnderflow;
      }
    }

    // ----------------------------------------------------------------------------------
    // Splitting
    // ----------------------------------------------------------------------------------

    /** The path to the key at a position, by going from key to key. */
    method PathToPosition(position: nat) returns (path: seq<nat>)
      requires Valid() && validLen > 0 && position < Leaves(shape)
      ensures path == PathTo(shape, ptrArea, position)
    {
      hide *;
      var pos;
      pos, path := BringNextItem([root], 0);
      var i := 0;
      while i < position
        invariant 0 <= i <= position && path == PathTo(shape, ptrArea, i)
      {
        i := i + 1;
        pos, path := BringNextItem(path, i);
      }
    }

    /** Cuts the trie along a path: a copy of the pointers to one side, in which the kept branches are
        chained, together with the old pointers to the other side lays out what is left. */
    method CutPointers(path: seq<nat>, large: bool, ghost position: nat) returns (cut: array<nat>, partRoot: nat)
      requires Valid() && validLen > 0 && position < Leaves(shape) && path == PathTo(shape, ptrArea, position)
      requires if large then position > 0 else position + 1 < Leaves(shape)
      ensures fresh(cut) && cut.Length == slots - 1 && position < Size(T())
      ensures var v, tab := PruneShape(shape, position, large),
                TableOf(blindiKeys, if large then smallPtr else cut, if large then cut else largePtr, keyPtr, ptrArea);
              && Laid(v, tab) && Distinct(v) && Leaves(v) == (if large then position + 1 else Leaves(shape) - position)
              && partRoot == Ptr(v, ptrArea) && TrieOf(v, tab) == if large then Take(T(), position + 1) else Drop(T(), position)
    {
      hide *;
      ValidParts();
      ValidSlots();
      ghost var s, tab := shape, Tab();
      PathAlong(s, tab, position, large);
      PathsDistinct(s, tab, position);
      TurnsSomewhere(s, tab, position, large);
      SideIs(tab, large);
      var pointers := if large then largePtr else smallPtr;
      cut := new nat[slots - 1];
      CopyForward(pointers, 0, slots - 1, cut, 0);
      assert cut[..] == pointers[..];
      partRoot := ChainKept(pointers, cut, path, root);
      TableIs(blindiKeys, if large then smallPtr else cut, if large then cut else largePtr, keyPtr, ptrArea);
      ghost var tab1 := TableOf(blindiKeys, if large then smallPtr else cut, if large then cut else largePtr, keyPtr, ptrArea);
      SidesAre(s, tab, tab1, position, large);
      PruneLaid(s, tab, tab1, position, large);
      PruneSlots(s, position, large);
    }

    /** Copies the keys up to a position, or from it on, into an empty node. */
    method CopyPart(node: TrieBlindiNode, path: seq<nat>, large: bool, half: nat, ghost position: nat)
      requires Valid() && validLen > 0 && node.Shaped() && Apart(node) && position < Leaves(shape) && path == PathTo(shape, ptrArea, position)
      requires 2 <= half <= slots && half == if large then position + 1 else Leaves(shape) - position
      requires if large then position > 0 else position + 1 < Leaves(shape)
      modifies node, node.blindiKeys, node.smallPtr, node.largePtr, node.keyPtr
      ensures node.Valid() && node.validLen == half && position < Size(T())
      ensures node.T() == if large then Take(T(), position + 1) else Drop(T(), position)
    {
      hide *;
      ValidParts();
      ValidSlots();
      OtherShaped(node);
      ghost var v := PruneShape(shape, position, large);
      var cut, partRoot := CutPointers(path, large, position);
      node.root := FillNodeArray(partRoot, if large then smallPtr else cut, if large then cut else largePtr, blindiKeys, keyPtr,
        node.blindiKeys, node.smallPtr, node.largePtr, node.keyPtr, ptrArea, half, v);
      node.validLen := half;
      node.shape := Relabel(v, 0, 0);
      TableIs(node.blindiKeys, node.smallPtr, node.largePtr, node.keyPtr, ptrArea);
      node.TabArea();
      CutCorrect(T(), position, keyBits, large);
      RelabelFills(v, half);
      node.NowValid();
    }

    lemma OtherShaped(node: TrieBlindiNode)
      requires Shaped() && node.Shaped() && Apart(node)
      ensures this != node && keyBits == node.keyBits && slots == node.slots && ptrArea == node.ptrArea && keyPtr != node.keyPtr
      ensures {blindiKeys, smallPtr, largePtr} !! {node.blindiKeys, node.smallPtr, node.largePtr}
      ensures 2 <= slots <= ptrArea && slots % 2 == 0 && node.keyPtr.Length == slots
      ensures node.blindiKeys.Length == node.smallPtr.Length == node.largePtr.Length == slots - 1
      ensures node.blindiKeys != node.smallPtr && node.blindiKeys != node.largePtr && node.smallPtr != node.largePtr
    {
    }

    /** Splits a full node: each half takes the trie cut along the path to its key at the middle, and lays
        it out in its own front slots. */
    method SplitBlindiNode(nodeSmall: TrieBlindiNode, nodeLarge: TrieBlindiNode)
      requires Valid() && validLen == slots && 4 <= slots
      requires nodeSmall.Shaped() && nodeLarge.Shaped() && Apart(nodeSmall) && Apart(nodeLarge) && nodeSmall.Apart(nodeLarge)
      modifies nodeSmall, nodeSmall.blindiKeys, nodeSmall.smallPtr, nodeSmall.largePtr, nodeSmall.keyPtr
      modifies nodeLarge, nodeLarge.blindiKeys, nodeLarge.smallPtr, nodeLarge.largePtr, nodeLarge.keyPtr
      ensures Valid() && Stored() == old(Stored()) && |Stored()| == slots && nodeSmall.Valid() && nodeLarge.Valid()
      ensures nodeSmall.Stored() == Stored()[..slots / 2] && nodeLarge.Stored() == Stored()[slots / 2..]
    {
      hide *;
      ValidParts();
      ValidSlots();
      var half := slots / 2;
      OtherShaped(nodeSmall);
      OtherShaped(nodeLarge);
      nodeSmall.OtherShaped(nodeLarge);
      var pathSmall := PathToPosition(half - 1);
      var pos, pathLarge := BringNextItem(pathSmall, half);
      CopyPart(nodeSmall, pathSmall, true, half, half - 1);
      CopyPart(nodeLarge, pathLarge, false, half, half);
      CutCorrect(T(), half - 1, keyBits, true);
      CutCorrect(T(), half, keyBits, false);
      ValidParts();
      nodeSmall.ValidParts();
      nodeLarge.ValidParts();
    }

    // ----------------------------------------------------------------------------------
    // Merging
    // ----------------------------------------------------------------------------------

    ghost predicate Apart(other: TrieBlindiNode)
    {
      && this != other && keyBits == other.keyBits && slots == other.slots && ptrArea == other.ptrArea && keyPtr != other.keyPtr
      && {blindiKeys, smallPtr, largePtr} !! {other.blindiKeys, other.smallPtr, other.largePtr}
    }

    /** Appends the keys of a node whose keys all follow. */
    method MergeBlindiNodes(nodeLarge: TrieBlindiNode)
      requires Valid() && nodeLarge.Valid() && Apart(nodeLarge)
      requires (0 < validLen || 0 < nodeLarge.validLen) && validLen + nodeLarge.validLen <= slots
      requires Uniform(Stored() + nodeLarge.Stored(), keyBits) && StrictlySorted(Stored() + nodeLarge.Stored(), keyBits)
      modifies this, blindiKeys, smallPtr, largePtr, keyPtr
      ensures Valid() && nodeLarge.Valid()
      ensures Stored() == old(Stored()) + old(nodeLarge.Stored()) && nodeLarge.Stored() == old(nodeLarge.Stored())
    {
      hide Laid, Distinct, WellFormed, Contents, Branches, KeySlots, Fills, TrieOf, Leaves;
      if validLen == 0 {
        CopyNode(nodeLarge);
        return;
      }
      if nodeLarge.validLen == 0 {
        return;
      }
      MergeNonEmpty(nodeLarge);
    }

    method CopyNode(nodeLarge: TrieBlindiNode)
      requires Valid() && validLen == 0 && nodeLarge.Valid() && Apart(nodeLarge) && 0 < nodeLarge.validLen
      modifies this, blindiKeys, smallPtr, largePtr, keyPtr
      ensures Valid() && nodeLarge.Valid()
      ensures Stored() == nodeLarge.Stored() == old(nodeLarge.Stored())
    {
      hide *;
      nodeLarge.ValidParts();
      nodeLarge.ValidSlots();
      ApartParts(nodeLarge);
      var n := nodeLarge.validLen;
      root := nodeLarge.root;
      CopyBehind(nodeLarge.keyPtr, n, keyPtr, 0);
      CopyBehind(nodeLarge.blindiKeys, n - 1, blindiKeys, 0);
      CopyBehind(nodeLarge.smallPtr, n - 1, smallPtr, 0);
      CopyBehind(nodeLarge.largePtr, n - 1, largePtr, 0);
      validLen := n;
      shape := nodeLarge.shape;
      TabArea();
      SameFront(shape, nodeLarge.Tab(), Tab(), n);
      Frame(shape, nodeLarge.Tab(), Tab());
      NowValid();
    }

    /** Behind the keys, branches and pointers of this node come those of the other one, moved up. */
    method CopyIn(nodeLarge: TrieBlindiNode)
      requires Valid() && nodeLarge.Valid() && Apart(nodeLarge) && 0 < validLen && 0 < nodeLarge.validLen && validLen + nodeLarge.validLen <= slots
      modifies blindiKeys, smallPtr, largePtr, keyPtr
      ensures Laid(old(shape), old(Tab())) && Laid(shape, Tab()) && TrieOf(shape, Tab()) == old(T())
      ensures nodeLarge.Valid() && nodeLarge.T() == old(nodeLarge.T()) && nodeLarge.Stored() == old(nodeLarge.Stored())
      ensures var u := ShiftShape(nodeLarge.shape, validLen);
              Laid(u, Tab()) && TrieOf(u, Tab()) == nodeLarge.T() && Ptr(u, ptrArea) == nodeLarge.root + validLen
    {
      hide *;
      ValidParts();
      ValidSlots();
      nodeLarge.ValidParts();
      nodeLarge.ValidSlots();
      ApartParts(nodeLarge);
      ghost var s, tab, u, n := shape, Tab(), nodeLarge.shape, validLen;
      var n1, n2 := validLen, nodeLarge.validLen;
      CopyBehind(nodeLarge.keyPtr, n2, keyPtr, n1);
      CopyBehind(nodeLarge.blindiKeys, n2 - 1, blindiKeys, n1);
      CopyMoved(nodeLarge.smallPtr, n2 - 1, smallPtr, n1);
      CopyMoved(nodeLarge.largePtr, n2 - 1, largePtr, n1);
      TabArea();
      nodeLarge.TabArea();
      SameFront(s, tab, Tab(), n1);
      Frame(s, tab, Tab());
      MovedBehind(u, nodeLarge.Tab(), Tab(), n1, n2);
      ShiftLaid(u, nodeLarge.Tab(), Tab(), n1);
      nodeLarge.NowValid();
    }

    /** Copies the other node in, finds both spines and the first bit in which the keys at their ends
        differ, and writes it to the slot of the new branch. */
    method PrepareMerge(nodeLarge: TrieBlindiNode) returns (sp: seq<nat>, lp: seq<nat>, diffPos: nat)
      requires Valid() && nodeLarge.Valid() && Apart(nodeLarge)
      requires 0 < validLen && 0 < nodeLarge.validLen && validLen + nodeLarge.validLen <= slots
      requires Uniform(Stored() + nodeLarge.Stored(), keyBits) && StrictlySorted(Stored() + nodeLarge.Stored(), keyBits)
      modifies blindiKeys, smallPtr, largePtr, keyPtr
      ensures nodeLarge.Valid() && nodeLarge.Stored() == old(nodeLarge.Stored())
      ensures var u := ShiftShape(nodeLarge.shape, validLen);
              && Beside(shape, u, Tab()) && Laid(shape, Tab()) && Laid(u, Tab()) && KeySlots(shape) !! KeySlots(u)
              && TrieOf(shape, Tab()) == old(T()) && TrieOf(u, Tab()) == old(nodeLarge.T())
              && sp == PathTo(shape, ptrArea, Leaves(shape) - 1) && lp == PathTo(u, ptrArea, 0)
              && Slots(Tab(), validLen - 1) && Tab().bits[validLen - 1] == diffPos
              && validLen - 1 !in Branches(shape) && validLen - 1 !in Branches(u)
      ensures Adjacent(old(T()), old(nodeLarge.T()), diffPos, keyBits)
    {
      hide *;
      ValidParts();
      ValidSlots();
      nodeLarge.ValidParts();
      nodeLarge.ValidSlots();
      ApartParts(nodeLarge);
      ghost var t1, t2, s, u := T(), nodeLarge.T(), shape, ShiftShape(nodeLarge.shape, validLen);
      BoundaryOf(t1, t2, keyBits, Stored(), nodeLarge.Stored());
      CopyIn(nodeLarge);
      ShiftSlots(nodeLarge.shape, validLen);
      TabArea();
      var first := nodeLarge.root + validLen;
      var lastPos, firstPos;
      lastPos, sp := BringLargestInSubtree(root, [root], s);
      firstPos, lp := BringSmallestInSubtree(first, [first], u);
      EmptyFront([root], PathTo(s, ptrArea, Leaves(s) - 1));
      EmptyFront([first], PathTo(u, ptrArea, 0));
      EndKeys(s, u, Tab(), t1, t2);
      EndsAtIs(PathTo(s, ptrArea, Leaves(s) - 1), Tab(), Last(t1));
      EndsAtIs(PathTo(u, ptrArea, 0), Tab(), First(t2));
      diffPos := Diff(keyPtr[lastPos - ptrArea], keyPtr[firstPos - ptrArea]);
      ghost var tab := Tab();
      BesideEach(s, u, tab, validLen, nodeLarge.shape);
      blindiKeys[validLen - 1] := diffPos;
      TabArea();
      BitWritten(s, u, tab, Tab(), validLen - 1, diffPos);
    }

    method MergeNonEmpty(nodeLarge: TrieBlindiNode)
      requires Valid() && nodeLarge.Valid() && Apart(nodeLarge)
      requires 0 < validLen && 0 < nodeLarge.validLen && validLen + nodeLarge.validLen <= slots
      requires Uniform(Stored() + nodeLarge.Stored(), keyBits) && StrictlySorted(Stored() + nodeLarge.Stored(), keyBits)
      modifies this, blindiKeys, smallPtr, largePtr, keyPtr
      ensures Valid() && nodeLarge.Valid()
      ensures Stored() == old(Stored()) + old(nodeLarge.Stored()) && nodeLarge.Stored() == old(nodeLarge.Stored())
    {
      hide *;
      ValidParts();
      ValidSlots();
      nodeLarge.ValidParts();
      nodeLarge.ValidSlots();
      ApartParts(nodeLarge);
      ghost var t1, t2, s, u := T(), nodeLarge.T(), shape, ShiftShape(nodeLarge.shape, validLen);
      var n1, n2 := validLen, nodeLarge.validLen;
      var sp, lp, diffPos := PrepareMerge(nodeLarge);
      ShiftSlots(nodeLarge.shape, n1);
      TableIs(blindiKeys, smallPtr, largePtr, keyPtr, ptrArea);
      TabArea();
      ghost var tab := Tab();
      root := SpliceSpines(blindiKeys, smallPtr, largePtr, keyPtr, ptrArea, sp, lp, diffPos, n1 - 1, s, u, keyBits);
      validLen := n1 + n2;
      BesideDistinct(s, u, tab);
      JoinSlots(s, u, tab, diffPos, n1 - 1);
      JoinWellFormed(t1, t2, diffPos, keyBits);
      JoinContents(t1, t2, diffPos);
      shape := JoinShape(s, u, tab, diffPos, n1 - 1);
      FilledUp(s, u, nodeLarge.shape, shape, n1, n2);
      TableIs(blindiKeys, smallPtr, largePtr, keyPtr, ptrArea);
      TabArea();
      NowValid();
    }

    lemma ApartParts(nodeLarge: TrieBlindiNode)
      requires Valid() && nodeLarge.Valid() && Apart(nodeLarge)
      ensures this != nodeLarge && keyBits == nodeLarge.keyBits && slots == nodeLarge.slots && ptrArea == nodeLarge.ptrArea && keyPtr != nodeLarge.keyPtr
      ensures {blindiKeys, smallPtr, largePtr} !! {nodeLarge.blindiKeys, nodeLarge.smallPtr, nodeLarge.largePtr}
      ensures 2 <= slots <= ptrArea && slots % 2 == 0 && validLen <= slots && keyPtr.Length == slots
      ensures blindiKeys.Length == smallPtr.Length == largePtr.Length == slots - 1
      ensures blindiKeys != smallPtr && blindiKeys != largePtr && smallPtr != largePtr
    {
      hide Laid, Distinct, WellFormed, Contents, Branches, KeySlots, Fills;
    }

    lemma ValidSlots()
      requires Valid() && validLen > 0
      ensures Shaped() && Fills(Branches(shape), validLen - 1) && Fills(KeySlots(shape), validLen)
      ensures 2 <= slots <= ptrArea && slots % 2 == 0 && validLen <= slots && keyPtr.Length == slots
      ensures blindiKeys.Length == smallPtr.Length == largePtr.Length == slots - 1
      ensures blindiKeys != smallPtr && blindiKeys != largePtr && smallPtr != largePtr
      ensures validLen - 1 !in Branches(shape) && validLen !in KeySlots(shape)
      ensures forall i :: i in Branches(shape) ==> i < validLen - 1
    {
      hide Laid, Distinct, WellFormed, Contents, Branches, KeySlots;
    }

    lemma NowValid()
      requires 2 <= slots <= ptrArea && slots % 2 == 0 && 0 < validLen <= slots && keyPtr.Length == slots
      requires blindiKeys.Length == smallPtr.Length == largePtr.Length == slots - 1
      requires blindiKeys != smallPtr && blindiKeys != largePtr && smallPtr != largePtr
      requires Laid(shape, Tab()) && Distinct(shape) && Leaves(shape) == validLen && root == Ptr(shape, ptrArea)
      requires Fills(Branches(shape), validLen - 1) && Fills(KeySlots(shape), validLen) && WellFormed(TrieOf(shape, Tab()), keyBits)
      ensures Valid() && T() == TrieOf(shape, Tab()) && Stored() == Contents(T())
    {
      hide Laid, Distinct, WellFormed, Contents, Branches, KeySlots, Fills, Tab;
    }
  }

  lemma DescendInside(s: Shape, tab: Table, q: Key)
    requires Laid(s, tab) && WellFormed(TrieOf(s, tab), |q|)
    ensures Descend(TrieOf(s, tab), q) < Leaves(s)
    ensures [Ptr(s, tab.area)][..0] + PathTo(s, tab.area, Descend(TrieOf(s, tab), q)) == PathTo(s, tab.area, Descend(TrieOf(s, tab), q))
  {
    LeavesAreKeys(s, tab);
  }

  /** A pointer below the area names a branch. */
  lemma BranchSlot(s: Shape, tab: Table)
    requires Laid(s, tab)
    ensures s.Branch? <==> Ptr(s, tab.area) < tab.area
    ensures s.Branch? ==> s.slot == Ptr(s, tab.area) && Slots(tab, s.slot) && s.slot < |tab.bits| && s.slot < |tab.small| && s.slot < |tab.large|
    ensures s.Branch? ==> tab.small[s.slot] == Ptr(s.small, tab.area) && tab.large[s.slot] == Ptr(s.large, tab.area)
    ensures s.Branch? ==> Laid(s.small, tab) && Laid(s.large, tab)
    ensures s.KeyAt? ==> s.slot < |tab.keys| && Ptr(s, tab.area) == tab.area + s.slot && Leaves(s) == 1
  {
    hide Leaves;
    assert s.KeyAt? ==> Leaves(s) == 1 by { OneLeaf(s); }
  }

  lemma OneLeaf(s: Shape)
    ensures s.KeyAt? ==> Leaves(s) == 1
  {
  }

  lemma StepDown(s: Shape, tab: Table, q: Key, path: seq<nat>, whole: seq<nat>)
    requires Laid(s, tab) && WellFormed(TrieOf(s, tab), |q|) && s.Branch? && tab.bits[s.slot] < |q|
    requires Descend(TrieOf(s, tab), q) < Leaves(s)
    requires |path| > 0 && path[|path| - 1] == Ptr(s, tab.area)
    requires whole == path[..|path| - 1] + PathTo(s, tab.area, Descend(TrieOf(s, tab), q))
    ensures var c := Toward(s, tab, q);
            && WellFormed(TrieOf(c, tab), |q|) && Descend(TrieOf(c, tab), q) < Leaves(c)
            && c == (if q[tab.bits[s.slot]] then s.large else s.small)
            && whole == (path + [Ptr(c, tab.area)])[..|path|] + PathTo(c, tab.area, Descend(TrieOf(c, tab), q))
  {
    hide *;
    var i, c := Descend(TrieOf(s, tab), q), Toward(s, tab, q);
    BranchSlot(s, tab);
    TowardTrie(s, tab, q);
    TowardIs(s, tab, q);
    PathStep(s, tab.area, i);
    DescendInside(c, tab, q);
    MoveDown(path, Ptr(c, tab.area), PathTo(c, tab.area, Descend(TrieOf(c, tab), q)), whole);
  }

  lemma TowardIs(s: Shape, tab: Table, q: Key)
    requires Laid(s, tab) && s.Branch? && tab.bits[s.slot] < |q|
    ensures Toward(s, tab, q) == if q[tab.bits[s.slot]] then s.large else s.small
  {
  }

  lemma MoveDown<X>(path: seq<X>, y: X, rest: seq<X>, whole: seq<X>)
    requires |path| > 0 && whole == path[..|path| - 1] + ([path[|path| - 1]] + rest)
    ensures whole == (path + [y])[..|path|] + rest
  {
    assert (path + [y])[..|path|] == path[..|path| - 1] + [path[|path| - 1]];
  }

  lemma AtKey(s: Shape, tab: Table, q: Key)
    requires Laid(s, tab) && tab.area <= Ptr(s, tab.area) && WellFormed(TrieOf(s, tab), |q|)
    ensures Descend(TrieOf(s, tab), q) == 0 < Leaves(s) && PathTo(s, tab.area, 0) == [Ptr(s, tab.area)]
  {
  }

  lemma AroundAt(tab: Table, p: seq<nat>, n: nat, d: nat, j: nat)
    requires BitsAround(tab, p, n, d) && j < |p| - 1
    ensures p[j] < |tab.bits| && if j < n then tab.bits[p[j]] < d else tab.bits[p[j]] > d
  {
  }

  lemma SlotsOnPath(s: Shape, tab: Table, i: nat, k: nat)
    requires Laid(s, tab) && i < Leaves(s) && k < |PathTo(s, tab.area, i)| - 1
    ensures PathTo(s, tab.area, i)[k] < |tab.bits| && PathTo(s, tab.area, i)[k] < |tab.small| && PathTo(s, tab.area, i)[k] < |tab.large|
    ensures Slots(tab, PathTo(s, tab.area, i)[k])
  {
    PathEnds(s, tab, i);
  }

  /** One step towards the first or the last key of a branch. */
  lemma EdgeStep(s: Shape, tab: Table, path: seq<nat>, whole: seq<nat>, large: bool)
    requires Laid(s, tab) && s.Branch? && |path| > 0 && path[|path| - 1] == s.slot
    requires whole == path[..|path| - 1] + PathTo(s, tab.area, if large then Leaves(s) - 1 else 0)
    ensures var c := if large then s.large else s.small;
            && Laid(c, tab) && Ptr(c, tab.area) == (if large then tab.large[s.slot] else tab.small[s.slot])
            && whole == (path + [Ptr(c, tab.area)])[..|path|] + PathTo(c, tab.area, if large then Leaves(c) - 1 else 0)
  {
    var i, c := if large then Leaves(s) - 1 else 0, if large then s.large else s.small;
    BranchSlot(s, tab);
    PathStep(s, tab.area, i);
    assert Child(s, i) == c && ChildIndex(s, i) == if large then Leaves(c) - 1 else 0;
    hide *;
    MoveDown(path, Ptr(c, tab.area), PathTo(c, tab.area, if large then Leaves(c) - 1 else 0), whole);
  }

  lemma OnlyPath(s: Shape, tab: Table, path: seq<nat>)
    requires Laid(s, tab) && tab.area <= Ptr(s, tab.area) && |path| > 0 && path[|path| - 1] == Ptr(s, tab.area)
    ensures Leaves(s) == 1 && path == path[..|path| - 1] + PathTo(s, tab.area, 0)
  {
    BranchSlot(s, tab);
  }

  lemma PathOfOne(s: Shape, area: nat, i: nat)
    requires i < Leaves(s)
    ensures |PathTo(s, area, i)| == 1 <==> s.KeyAt?
    ensures s.KeyAt? ==> Leaves(s) == 1
  {
  }

  lemma EmptyFront<X>(p: seq<X>, x: seq<X>)
    ensures p[..0] + x == x
  {
  }

  /** What the tests on the way up see. */
  lemma TurnAt(tab: Table, p: seq<nat>, j: nat, c: Shape, k: nat, toLarge: bool)
    requires Crosses(tab, p, j, c, toLarge) && j <= k < |p| - 1
    ensures Slots(tab, p[k]) && p[k] < |tab.small| && p[k] < |tab.large| && Laid(c, tab)
    ensures (if toLarge then tab.small[p[k]] else tab.large[p[k]]) == p[k + 1] <==> k == j
    ensures k == j ==> Ptr(c, tab.area) == if toLarge then tab.large[p[k]] else tab.small[p[k]]
  {
    hide Laid, Distinct;
    if k > j { assert Turns(tab, p, k, toLarge); }
  }

  /** Nothing points to the root. */
  lemma RootUnreferenced(s: Shape, tab: Table, i: nat, k: nat)
    requires Laid(s, tab) && Distinct(s) && i < Leaves(s) && k < |PathTo(s, tab.area, i)| - 1
    ensures var x := PathTo(s, tab.area, i)[k];
            && Slots(tab, x) && x < |tab.small| && x < |tab.large| && tab.small[x] != Ptr(s, tab.area) && tab.large[x] != Ptr(s, tab.area)
  {
    PathEnds(s, tab, i);
    hide PathTo;
    var x := PathTo(s, tab.area, i)[k];
    OneReference(s, tab, x, x, Ptr(s, tab.area));
  }

  /** From the rank of a query to the first key that is not below it. */
  lemma FromRank(s: seq<Key>, bits: nat, q: Key, rank: nat, hit: bool)
    requires Uniform(s, bits) && StrictlySorted(s, bits) && |q| == bits && IsRank(s, bits, q, rank)
    requires if hit then rank > 0 && s[rank - 1] == q else q !in s
    ensures var at := if hit then rank - 1 else rank;
            && (forall i :: 0 <= i < at ==> Less(s[i], q)) && (forall i :: at <= i < |s| ==> !Less(s[i], q))
  {
    forall i | 0 <= i < |s|
      ensures Less(s[i], q) || Less(q, s[i]) || s[i] == q
      ensures !(Less(s[i], q) && Less(q, s[i])) && (s[i] == q ==> !Less(s[i], q))
    {
      LessTotal(s[i], q);
    }
    hide Less;
  }

  /** What lies in front of such a position is all that is below the query. */
  lemma FirstFrom(s: seq<Key>, bits: nat, q: Key, at: nat)
    requires Uniform(s, bits) && StrictlySorted(s, bits) && |q| == bits && at <= |s|
    ensures at < |s| ==> |s[at]| == |q| && forall i :: 0 <= i < |s| && Less(s[i], s[at]) ==> i < at
  {
    if at < |s| {
      forall i | 0 <= i < |s| && Less(s[i], s[at])
        ensures i < at
      {
        LessTotal(s[i], s[at]);
      }
    }
  }

  lemma RankInside(s: seq<Key>, bits: nat, q: Key, rank: nat)
    requires Uniform(s, bits) && |q| == bits && IsRank(s, bits, q, rank)
    ensures rank <= |s|
  {
  }

  lemma OnlyOnce(s: seq<Key>, bits: nat, i: nat, j: nat)
    requires Uniform(s, bits) && StrictlySorted(s, bits) && i <= j < |s| && s[i] == s[j]
    ensures i == j
  {
    if i < j {
      LessTotal(s[i], s[j]);
    }
  }

  lemma SlotOfPath(s: Shape, tab: Table, i: nat)
    requires Laid(s, tab) && i < Leaves(s)
    ensures var p := PathTo(s, tab.area, i); p[|p| - 1] == tab.area + KeySlot(s, i)
  {
    PathEnds(s, tab, i);
  }

  lemma ProbedBit(t: Trie, q: Key, d: nat)
    requires Probed(t, q, d)
    ensures d < |q|
  {
  }

  lemma FrontOf<X>(p: seq<X>, n: nat)
    requires n < |p|
    ensures |p[..n + 1]| == n + 1 && p[..n + 1][n] == p[n] && p[..n + 1][..n] == p[..n]
  {
  }

  lemma KeyLength(ks: seq<Key>, bits: nat, i: nat)
    requires Uniform(ks, bits) && i < |ks|
    ensures |ks[i]| == bits
  {
  }

  lemma ProbeBit(q: Key, k: Key)
    requires |q| == |k| && q != k
    ensures Diff(q, k) < |q| && Less(k, q) == q[Diff(q, k)]
  {
    DiffSymmetric(q, k);
  }

  /** The tests on the way up from the part: the path of the descent goes there as the path to the first
      key of the part does. */
  lemma TurnsAbove(s: Shape, tab: Table, w: seq<nat>, o: nat, k: nat, p: seq<nat>, n: nat)
    requires o < Leaves(s) && w == PathTo(s, tab.area, o) && k < n < |w| && n < |p| && p[..n] == w[..n] && p[n] == w[n]
    requires if o == 0 then AllTurn(tab, w, 0, false) else Crosses(tab, w, PreviousTurn(s, o), PreviousPart(s, o), false)
    requires o > 0 ==> PreviousTurn(s, o) <= k
    ensures Slots(tab, p[k]) && p[k] < |tab.small| && p[k] < |tab.large|
    ensures tab.large[p[k]] == p[k + 1] <==> o > 0 && k == PreviousTurn(s, o)
    ensures o > 0 && k == PreviousTurn(s, o) ==>
              && Laid(PreviousPart(s, o), tab) && Ptr(PreviousPart(s, o), tab.area) == tab.small[p[k]]
              && p[..k + 1] == w[..k + 1]
  {
    hide Laid, Distinct, PathTo;
    assert p[k] == w[..n][k] == w[k];
    assert p[k + 1] == w[k + 1] by { if k + 1 < n { assert p[k + 1] == w[..n][k + 1]; } }
    if o > 0 {
      TurnAt(tab, w, PreviousTurn(s, o), PreviousPart(s, o), k, false);
      assert p[..k + 1] == w[..n][..k + 1] == w[..k + 1];
    } else {
      assert Turns(tab, w, k, false);
    }
  }

  lemma LastOfFront<X>(p: seq<X>, n: nat)
    requires 0 < n <= |p|
    ensures p[..n][n - 1] == p[n - 1]
  {
  }

  lemma SlotsInside(s: Shape, tab: Table)
    requires Laid(s, tab)
    ensures forall i :: i in Branches(s) ==> i < tab.area && i < |tab.bits| && i < |tab.small| && i < |tab.large|
    ensures forall k :: k in KeySlots(s) ==> k < |tab.keys|
  {
    LaidSlots(s, tab);
  }

  lemma OneMore(s: Shape, u: Shape, b: nat, k: nat)
    requires Fills(Branches(s), b) && Fills(KeySlots(s), k)
    requires Branches(u) == Branches(s) + {b} && KeySlots(u) == KeySlots(s) + {k}
    ensures Fills(Branches(u), b + 1) && Fills(KeySlots(u), k + 1)
  {
    hide Branches, KeySlots;
  }

  lemma WholeRoot(s: Shape, tab: Table, q: Key, d: nat)
    requires Laid(s, tab) && BitsBelow(s, tab, |q|)
    ensures Depth(s, tab, q, d) == 0 ==> Part(s, tab, q, d) == s
  {
  }

  lemma SameTable(s: Shape, tab: Table, but: nat)
    requires Laid(s, tab)
    ensures SameBut(s, tab, tab, but)
  {
  }

  lemma Redirects(s: Shape, tab: Table, tab': Table, q: Key, par: nat, p: nat)
    requires Laid(s, tab) && par in Branches(s) && Slots(tab, par) && tab.bits[par] < |q|
    requires var toLarge := q[tab.bits[par]];
             tab' == if toLarge then tab.(large := tab.large[par := p]) else tab.(small := tab.small[par := p])
    ensures SameBut(s, tab, tab', par) && Redirected(tab, tab', q, par, p)
  {
    hide Laid, Branches, KeySlots;
  }

  lemma MovedBelow(x: nat, last: nat)
    ensures forall j: nat :: j < last ==> Moved(j, x, last) <= last
  {
  }

  lemma CopiedAt<X>(s: seq<X>, b: nat, last: nat, j: nat)
    requires j < last < |s| && b <= last
    ensures Moved(j, b, last) <= last && s[b := s[last]][j] == s[Moved(j, b, last)]
  {
  }

  lemma MovedRoot(root: nat, area: nat, n: nat, k: nat, b: nat)
    requires 0 < n <= area && k <= n && b < n
    requires if n == 1 then root == area + (1 - k) else root < n && root != b
    ensures MovedPtr(root, area, n, k, n - 1, b) == if n == 1 then area else if root == n - 1 then b else root
  {
  }

  lemma EmptiesOut(s: Shape, tab: Table, q: Key)
    requires Laid(s, tab) && Leaves(s) == 1 && WellFormed(TrieOf(s, tab), |q|)
    ensures Descend(TrieOf(s, tab), q) == 0 && |Contents(TrieOf(s, tab))| == 1 && RemovedAt(Contents(TrieOf(s, tab)), 0) == []
  {
  }

  lemma FreedSlots(slots: set<nat>, left: set<nat>, n: nat, x: nat)
    requires Fills(slots, n) && left == slots - {x} && x in slots
    ensures x < n && forall i: nat :: i in left <==> i < n && i != x
  {
  }

  /** The last slot moves to the freed one. */
  lemma Refilled(left: set<nat>, slots: set<nat>, last: nat, x: nat)
    requires (forall i: nat :: i in left <==> i < last + 1 && i != x) && x <= last && slots == MovedSet(left, last, x)
    ensures Fills(slots, last)
  {
  }

  lemma RootPlace(u: Shape, tab: Table, n: nat, k: nat, b: nat)
    requires Laid(u, tab) && Distinct(u) && Leaves(u) == n && 0 < n <= tab.area && k <= n
    requires forall i: nat :: i in Branches(u) <==> i < n && i != b
    requires forall i: nat :: i in KeySlots(u) <==> i < n + 1 && i != k
    ensures if n == 1 then Ptr(u, tab.area) == tab.area + (1 - k) else Ptr(u, tab.area) < n && Ptr(u, tab.area) != b
  {
    if u.Branch? {
      assert u.slot in Branches(u);
    } else {
      assert u.slot in KeySlots(u);
    }
  }

  lemma MovedTable(u: Shape, tab: Table, tab': Table, n: nat, k: nat, b: nat)
    requires Laid(u, tab) && tab'.area == tab.area && 0 < n <= tab.area && k <= n && b < n
    requires forall i: nat :: i in Branches(u) <==> i < n && i != b
    requires forall i: nat :: i in KeySlots(u) <==> i < n + 1 && i != k
    requires |tab'.bits| == |tab.bits| == |tab'.small| == |tab.small| == |tab'.large| == |tab.large| >= n && |tab'.keys| == |tab.keys| >= n + 1
    requires forall j: nat :: j < n ==> Moved(j, k, n) <= n
    requires forall j :: 0 <= j < n ==> tab'.keys[j] == tab.keys[Moved(j, k, n)]
    requires var last: nat := n - 1; forall j: nat :: j < last ==> Moved(j, b, last) <= last
    requires forall j :: 0 <= j < n - 1 ==> tab'.bits[j] == tab.bits[Moved(j, b, n - 1)]
    requires forall j :: 0 <= j < n - 1 ==> tab'.small[j] == MovedPtr(tab.small[Moved(j, b, n - 1)], tab.area, n, k, n - 1, b)
    requires forall j :: 0 <= j < n - 1 ==> tab'.large[j] == MovedPtr(tab.large[Moved(j, b, n - 1)], tab.area, n, k, n - 1, b)
    ensures forall i :: i in Branches(u) && Slots(tab, i) ==> MovedSlot(tab, tab', i, n, k, n - 1, b)
    ensures forall i :: i in KeySlots(u) && i < |tab.keys| ==> MovedKey(tab, tab', i, n, k)
  {
    hide Laid, Branches, KeySlots, MovedPtr;
    forall i | i in Branches(u) && Slots(tab, i)
      ensures MovedSlot(tab, tab', i, n, k, n - 1, b)
    {
      var j := Moved(i, n - 1, b);
      assert j < n - 1 && Moved(j, b, n - 1) == i;
    }
    forall i | i in KeySlots(u) && i < |tab.keys|
      ensures MovedKey(tab, tab', i, n, k)
    {
      var j := Moved(i, n, k);
      assert j < n && Moved(j, k, n) == i;
    }
  }

  /** Copies the first `n` entries to position `at` on. */
  method CopyBehind<X>(src: array<X>, n: nat, dst: array<X>, at: nat)
    requires src != dst && n <= src.Length && at + n <= dst.Length
    modifies dst
    ensures forall i :: 0 <= i < at ==> dst[i] == old(dst[i])
    ensures forall i :: at <= i < at + n ==> dst[i] == src[i - at]
  {
    var i := 0;
    while i < n
      invariant 0 <= i <= n
      invariant forall k :: 0 <= k < at ==> dst[k] == old(dst[k])
      invariant forall k :: at <= k < at + i ==> dst[k] == src[k - at]
    {
      dst[at + i] := src[i];
      i := i + 1;
    }
  }

  /** Copies the first `n` pointers to position `at` on, each moved up by `at`. */
  method CopyMoved(src: array<nat>, n: nat, dst: array<nat>, at: nat)
    requires src != dst && n <= src.Length && at + n <= dst.Length
    modifies dst
    ensures forall i :: 0 <= i < at ==> dst[i] == old(dst[i])
    ensures forall i :: at <= i < at + n ==> dst[i] == src[i - at] + at
  {
    var i := 0;
    while i < n
      invariant 0 <= i <= n
      invariant forall k :: 0 <= k < at ==> dst[k] == old(dst[k])
      invariant forall k :: at <= k < at + i ==> dst[k] == src[k - at] + at
    {
      dst[at + i] := src[i] + at;
      i := i + 1;
    }
  }

  /** A shape in the slots in front of `n` is the same in tables that agree there. */
  lemma SameFront(s: Shape, tab: Table, tab': Table, n: nat)
    requires Laid(s, tab) && 0 < n && Fills(Branches(s), n - 1) && Fills(KeySlots(s), n) && tab.area == tab'.area
    requires n - 1 <= |tab'.bits| && n - 1 <= |tab'.small| && n - 1 <= |tab'.large| && n <= |tab'.keys|
    requires n - 1 <= |tab.bits| && n - 1 <= |tab.small| && n - 1 <= |tab.large| && n <= |tab.keys|
    requires forall i :: 0 <= i < n - 1 ==> tab'.bits[i] == tab.bits[i] && tab'.small[i] == tab.small[i] && tab'.large[i] == tab.large[i]
    requires forall k :: 0 <= k < n ==> tab'.keys[k] == tab.keys[k]
    ensures Same(s, tab, tab')
  {
    hide Laid, Branches, KeySlots, Same;
    SameIf(s, tab, tab');
  }

  lemma MovedBehind(u: Shape, tab: Table, tab': Table, n1: nat, n2: nat)
    requires Laid(u, tab) && 0 < n2 && Fills(Branches(u), n2 - 1) && Fills(KeySlots(u), n2) && tab'.area == tab.area && n1 + n2 <= tab.area
    requires n2 - 1 <= |tab.bits| && n2 - 1 <= |tab.small| && n2 - 1 <= |tab.large| && n2 <= |tab.keys|
    requires n1 + n2 - 1 <= |tab'.bits| && n1 + n2 - 1 <= |tab'.small| && n1 + n2 - 1 <= |tab'.large| && n1 + n2 <= |tab'.keys|
    requires forall i :: n1 <= i < n1 + (n2 - 1) ==> tab'.bits[i] == tab.bits[i - n1]
    requires forall i :: n1 <= i < n1 + (n2 - 1) ==> tab'.small[i] == tab.small[i - n1] + n1
    requires forall i :: n1 <= i < n1 + (n2 - 1) ==> tab'.large[i] == tab.large[i - n1] + n1
    requires forall k :: n1 <= k < n1 + n2 ==> tab'.keys[k] == tab.keys[k - n1]
    ensures forall i :: i in Branches(u) && Slots(tab, i) ==> ShiftedSlot(tab, tab', i, n1)
    ensures forall k :: k in KeySlots(u) && k < |tab.keys| ==> ShiftedKey(tab, tab', k, n1)
  {
    hide Laid, Branches, KeySlots;
    forall i | i in Branches(u) && Slots(tab, i)
      ensures ShiftedSlot(tab, tab', i, n1)
    {
      assert i < n2 - 1 && n1 <= i + n1 < n1 + (n2 - 1);
    }
    forall k | k in KeySlots(u) && k < |tab.keys|
      ensures ShiftedKey(tab, tab', k, n1)
    {
      assert k < n2 && n1 <= k + n1 < n1 + n2;
    }
  }

  /** The path ends at this key. */
  predicate EndsAt(path: seq<nat>, tab: Table, key: Key)
  {
    |path| > 0 && path[|path| - 1] >= tab.area && path[|path| - 1] - tab.area < |tab.keys| && tab.keys[path[|path| - 1] - tab.area] == key
  }

  /** The ends of both spines are the last key of the one trie and the first key of the other. */
  lemma EndKeys(s: Shape, u: Shape, tab: Table, t1: Trie, t2: Trie)
    requires Laid(s, tab) && Laid(u, tab) && t1 == TrieOf(s, tab) && t2 == TrieOf(u, tab)
    ensures EndsAt(PathTo(s, tab.area, Leaves(s) - 1), tab, Last(t1)) && EndsAt(PathTo(u, tab.area, 0), tab, First(t2))
  {
    hide Laid, PathTo, KeySlot;
    LeavesAreKeys(s, tab);
    PathEnds(s, tab, Leaves(s) - 1);
    PathEnds(u, tab, 0);
    KeyAtPosition(s, tab, Leaves(s) - 1);
    KeyAtPosition(u, tab, 0);
  }

  lemma EndsAtIs(path: seq<nat>, tab: Table, key: Key)
    requires EndsAt(path, tab, key)
    ensures |path| > 0 && path[|path| - 1] >= tab.area && path[|path| - 1] - tab.area < |tab.keys| && tab.keys[path[|path| - 1] - tab.area] == key
  {
  }

  lemma BoundaryOf(t: Trie, u: Trie, bits: nat, a: seq<Key>, b: seq<Key>)
    requires WellFormed(t, bits) && WellFormed(u, bits) && a == Contents(t) && b == Contents(u)
    requires Uniform(a + b, bits) && StrictlySorted(a + b, bits)
    ensures |Last(t)| == |First(u)| == bits && Adjacent(t, u, Diff(Last(t), First(u)), bits)
  {
    var i, j := |a| - 1, |a|;
    assert (a + b)[i] == Last(t) && (a + b)[j] == First(u);
    assert Less((a + b)[i], (a + b)[j]);
  }

  lemma BesideEach(s: Shape, u: Shape, tab: Table, n: nat, v: Shape)
    requires Laid(s, tab) && Laid(u, tab) && Distinct(s) && Distinct(u) && 0 < n && Fills(Branches(s), n - 1) && Fills(KeySlots(s), n)
    requires forall i: nat :: i in Branches(u) <==> i >= n && i - n in Branches(v)
    requires forall k: nat :: k in KeySlots(u) <==> k >= n && k - n in KeySlots(v)
    ensures Beside(s, u, tab) && KeySlots(s) !! KeySlots(u) && n - 1 !in Branches(s) && n - 1 !in Branches(u)
  {
    hide Laid, Distinct, Branches, KeySlots;
  }

  lemma BesideDistinct(s: Shape, u: Shape, tab: Table)
    requires Beside(s, u, tab)
    ensures Laid(s, tab) && Laid(u, tab) && Distinct(s) && Distinct(u) && Branches(s) !! Branches(u)
  {
    hide Laid, Distinct, Branches;
  }

  lemma BitWritten(s: Shape, u: Shape, tab: Table, tab': Table, b: nat, d: nat)
    requires Beside(s, u, tab) && b !in Branches(s) && b !in Branches(u) && b < |tab.bits| && b < |tab.small| && b < |tab.large| && b < tab.area
    requires tab' == tab.(bits := tab.bits[b := d])
    ensures Beside(s, u, tab') && Laid(s, tab') && Laid(u, tab') && TrieOf(s, tab') == TrieOf(s, tab) && TrieOf(u, tab') == TrieOf(u, tab)
    ensures Slots(tab', b) && tab'.bits[b] == d
  {
    hide Laid, Distinct, Branches, KeySlots, TrieOf;
    assert OnlySlot(tab, tab', b);
    KeptElsewhere(s, tab, tab, tab', b);
    KeptElsewhere(u, tab, tab, tab', b);
  }

  lemma FilledUp(s: Shape, u: Shape, v: Shape, w: Shape, n1: nat, n2: nat)
    requires 0 < n1 && 0 < n2 && Fills(Branches(s), n1 - 1) && Fills(KeySlots(s), n1) && Fills(Branches(v), n2 - 1) && Fills(KeySlots(v), n2)
    requires forall i: nat :: i in Branches(u) <==> i >= n1 && i - n1 in Branches(v)
    requires forall k: nat :: k in KeySlots(u) <==> k >= n1 && k - n1 in KeySlots(v)
    requires Branches(w) == Branches(s) + Branches(u) + {n1 - 1} && KeySlots(w) == KeySlots(s) + KeySlots(u)
    ensures Fills(Branches(w), n1 + n2 - 1) && Fills(KeySlots(w), n1 + n2)
  {
    hide Branches, KeySlots;
  }

  lemma PathsDistinct(s: Shape, tab: Table, r: nat)
    requires Laid(s, tab) && Distinct(s) && r < Leaves(s)
    ensures var p := PathTo(s, tab.area, r); forall i, j :: 0 <= i < j < |p| - 1 ==> p[i] != p[j]
  {
    hide *;
    var p := PathTo(s, tab.area, r);
    forall i, j | 0 <= i < j < |p| - 1
      ensures p[i] != p[j]
    {
      PathDistinct(s, tab, r, i, j);
    }
  }

  lemma SideIs(tab: Table, large: bool)
    ensures SideOf(tab, large) == if large then tab.large else tab.small
  {
  }

  /** The table with the cut pointers, as the laws of cutting want it. */
  lemma SidesAre(s: Shape, tab: Table, tab': Table, r: nat, large: bool)
    requires Laid(s, tab) && r < Leaves(s) && tab'.bits == tab.bits && tab'.keys == tab.keys && tab'.area == tab.area
    requires if large then tab'.small == tab.small && |tab'.large| == |tab.large| else tab'.large == tab.large && |tab'.small| == |tab.small|
    requires var side, side' := if large then tab.large else tab.small, if large then tab'.large else tab'.small;
             forall x :: 0 <= x < |side'| && side'[x] != side[x] ==> KeptSlot(side, PathTo(s, tab.area, r), x)
    ensures OneSideCut(tab, tab', large)
    ensures SideOf(tab, large) == (if large then tab.large else tab.small) && SideOf(tab', large) == if large then tab'.large else tab'.small
    ensures OnlyKept(SideOf(tab, large), SideOf(tab', large), PathTo(s, tab.area, r), s)
  {
    hide KeptSlot, Laid, PathTo, Branches;
  }

  lemma CutCorrect(t: Trie, r: nat, bits: nat, large: bool)
    requires WellFormed(t, bits) && r < Size(t)
    ensures var u := if large then Take(t, r + 1) else Drop(t, r);
            WellFormed(u, bits) && r < |Contents(t)| && Contents(u) == if large then Contents(t)[..r + 1] else Contents(t)[r..]
  {
    if large { TakeCorrect(t, r + 1, bits); } else { DropCorrect(t, r, bits); }
  }

  lemma RelabelFills(v: Shape, half: nat)
    requires Leaves(v) == half
    ensures var u := Relabel(v, 0, 0); Distinct(u) && Leaves(u) == half && Fills(Branches(u), half - 1) && Fills(KeySlots(u), half)
    ensures half >= 2 ==> forall area: nat :: Ptr(Relabel(v, 0, 0), area) == 0
  {
    RelabelSlots(v, 0, 0);
    if half >= 2 { RelabelUnfolds(v, 0, 0); }
    hide Distinct, Branches, KeySlots;
  }
}
