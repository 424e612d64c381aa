/** The node that stores nothing but the differences of neighbouring keys, and scans them. */
module LinearNode {
  import opened Keys
  import opened NodeArrays
  import opened DiffScan
  import opened DiffEdits

  const HIGH_MISS: nat := 0xFFFFFFF

  class LinearBlindiNode {
    const slots: nat      // MAX_NODE_SIZE
    const keyBits: nat
    const dataPtr: array<Key>
    const blindiKeys: array<nat>
    var len: nat

    ghost predicate Shaped()
      reads this
    {
      && len <= slots <= 255 && slots % 2 == 0 && keyBits <= 255
      && dataPtr.Length == slots && blindiKeys.Length == slots
    }

    ghost predicate Valid()
      reads this, dataPtr, blindiKeys
    {
      Shaped() && (len > 0 ==> Adjacent(dataPtr[..len], blindiKeys[..len - 1], keyBits))
    }

    ghost function Stored(): (ks: seq<Key>)
      requires Shaped()
      reads this, dataPtr
    {
      dataPtr[..len]
    }

    ghost function Diffs(): (ds: seq<nat>)
      requires Shaped() && len > 0
      reads this, blindiKeys
    {
      blindiKeys[..len - 1]
    }

    lemma DiffsBelow()
      requires Valid() && len > 0
      ensures Below(Diffs(), keyBits) && Uniform(Stored(), keyBits) && StrictlySorted(Stored(), keyBits)
    {
      AdjacentSorted(Stored(), Diffs(), keyBits);
    }

    // ----------------------------------------------------------------------------------
    // Search
    // ----------------------------------------------------------------------------------

    method SearchFirstStage(q: Key) returns (pos: nat)
      requires Valid() && len > 0 && |q| == keyBits
      ensures Below(Diffs(), |q|) && pos == FirstStage(Diffs(), q)
    {
      hide Adjacent;
      DiffsBelow();
      ghost var diffs := Diffs();
      ghost var miss := NoMiss;
      pos := 0;
      var highMiss := HIGH_MISS;
      var i := 0;
      while i < len - 1
        invariant 0 <= i <= len - 1
        invariant (pos, miss) == Scan(diffs, q, 0, i, 0, NoMiss)
        invariant highMiss == if miss.NoMiss? then HIGH_MISS else miss.bit
        decreases len - 1 - i
      {
        ScanLast(diffs, q, 0, i, 0, NoMiss);
        var idx := blindiKeys[i];
        ghost var s := Step(diffs[i], q, i, pos, miss);
        if q[idx] {
          if idx <= highMiss {
            highMiss := HIGH_MISS;
            pos := i + 1;
          }
        } else if idx < highMiss {
          highMiss := idx;
        }
        miss := s.1;
        i := i + 1;
      }
    }

    method SearchSecondStage(secondStagePos: nat, diffPos: nat, rightLeft: bool) returns (pos: nat, smallerThanNode: bool)
      requires Valid() && len > 0 && secondStagePos < len
      ensures smallerThanNode <==> Rank(Diffs(), secondStagePos, diffPos, rightLeft) == 0
      ensures pos == if smallerThanNode then 0 else Rank(Diffs(), secondStagePos, diffPos, rightLeft) - 1
    {
      hide Adjacent;
      ghost var diffs := Diffs();
      if rightLeft {
        if len == 1 {
          return 0, false;
        }
        var i := secondStagePos;
        while i <= len - 2
          invariant secondStagePos <= i <= len - 1
          invariant forall j :: secondStagePos <= j < i ==> diffPos <= diffs[j]
          decreases len - i
        {
          if blindiKeys[i] < diffPos {
            RightEndIs(diffs, secondStagePos, diffPos, i);
            return i, false;
          }
          i := i + 1;
        }
        RightEndIs(diffs, secondStagePos, diffPos, len - 1);
        return len - 1, false;
      }
      if secondStagePos == 0 {
        return 0, true;
      }
      var i := secondStagePos - 1;
      while i >= 0
        invariant -1 <= i < secondStagePos
        invariant forall j :: i < j < secondStagePos ==> diffPos <= diffs[j]
        decreases i
      {
        if blindiKeys[i] < diffPos {
          LeftEndIs(diffs, secondStagePos, diffPos, i + 1);
          return i, false;
        }
        i := i - 1;
      }
      LeftEndIs(diffs, secondStagePos, diffPos, 0);
      return 0, true;
    }

    /** Point search reports a hit exactly when the key is stored; predecessor search returns the
        position of the largest key not greater than the query, or flags that there is none. */
    method BlindiNodeSearch(q: Key, predecessor: bool)
      returns (pos: nat, hit: bool, smallerThanNode: bool, diffPos: nat, rightLeft: bool, ghost probe: nat)
      requires Valid() && len > 0 && |q| == keyBits
      ensures pos < len && (hit <==> q in Stored()) && Below(Diffs(), |q|) && probe == FirstStage(Diffs(), q) < len
      ensures hit ==> Stored()[pos] == q && !smallerThanNode
      ensures !predecessor ==> pos == probe && !smallerThanNode
      ensures !hit && predecessor ==> Probes(Stored(), Diffs(), q, probe, diffPos) && rightLeft == q[diffPos]
      ensures !hit && predecessor ==> smallerThanNode == (Rank(Diffs(), probe, diffPos, rightLeft) == 0)
      ensures !hit && predecessor ==> pos == if smallerThanNode then 0 else Rank(Diffs(), probe, diffPos, rightLeft) - 1
      ensures Uniform(Stored(), keyBits)
      ensures predecessor ==> IsRank(Stored(), keyBits, q, if smallerThanNode then 0 else pos + 1)
    {
      hide Adjacent, Rank, FirstStage, IsRank;
      DiffsBelow();
      pos := SearchFirstStage(q);
      FirstStageMaximal(Stored(), Diffs(), q);
      probe := pos;
      var dbKey := dataPtr[pos];
      assert dbKey == Stored()[pos];
      diffPos, hit, rightLeft := Diff(q, dbKey), q == dbKey, Less(dbKey, q);
      pos, smallerThanNode := AfterComparison(q, pos, diffPos, hit, rightLeft, predecessor);
    }

    /** What follows the one comparison with a stored key. */
    method AfterComparison(q: Key, probe: nat, diffPos: nat, hit: bool, rightLeft: bool, predecessor: bool)
      returns (pos: nat, smallerThanNode: bool)
      requires Valid() && len > 0 && |q| == keyBits && Below(Diffs(), |q|) && Uniform(Stored(), keyBits) && StrictlySorted(Stored(), keyBits)
      requires probe == FirstStage(Diffs(), q) < len
      requires (hit <==> q == Stored()[probe]) && (!hit ==> diffPos == Diff(q, Stored()[probe]) && rightLeft == Less(Stored()[probe], q))
      ensures pos < len && (hit <==> q in Stored()) && Below(Diffs(), |q|) && probe == FirstStage(Diffs(), q) < len
      ensures hit ==> Stored()[pos] == q && !smallerThanNode
      ensures !predecessor ==> pos == probe && !smallerThanNode
      ensures !hit && predecessor ==> Probes(Stored(), Diffs(), q, probe, diffPos) && rightLeft == q[diffPos]
      ensures !hit && predecessor ==> smallerThanNode == (Rank(Diffs(), probe, diffPos, rightLeft) == 0)
      ensures !hit && predecessor ==> pos == if smallerThanNode then 0 else Rank(Diffs(), probe, diffPos, rightLeft) - 1
      ensures predecessor ==> IsRank(Stored(), keyBits, q, if smallerThanNode then 0 else pos + 1)
    {
      hide Adjacent;
      FirstStageMaximal(Stored(), Diffs(), q);
      pos, smallerThanNode := probe, false;
      if hit {
        HitIsRank(Stored(), keyBits, q, pos);
      }
      if !predecessor || hit {
        return;
      }
      DiffSymmetric(q, Stored()[probe]);
      RankCorrect(Stored(), Diffs(), q, pos, diffPos);
      if len == 1 {
        smallerThanNode := !rightLeft;
        return;
      }
      pos, smallerThanNode := SearchSecondStage(pos, diffPos, rightLeft);
    }

    /** The search with the bytes of a query, over the byte strings that the data pointers name: the one
        comparison runs over bytes, and finds what the order of the bit strings says. */
    method SearchBytes(query: seq<bv8>, stored: seq<seq<bv8>>, predecessor: bool) returns (pos: nat, hit: bool, smallerThanNode: bool)
      requires Valid() && len > 0 && keyBits == 8 * |query| && |stored| == len
      requires forall i :: 0 <= i < len ==> |stored[i]| == |query| && BitsOf(stored[i]) == dataPtr[i]
      ensures pos < len && (hit <==> query in stored)
      ensures hit ==> stored[pos] == query && !smallerThanNode
      ensures Below(Diffs(), keyBits) && (!predecessor ==> pos == FirstStage(Diffs(), BitsOf(query)) && !smallerThanNode)
      ensures Uniform(Stored(), keyBits)
      ensures predecessor ==> IsRank(Stored(), keyBits, BitsOf(query), if smallerThanNode then 0 else pos + 1)
    {
      hide Adjacent, Rank, FirstStage, IsRank, BitsOf, Less, Diff;
      var q := BitsOf(query);
      DiffsBelow();
      pos := SearchFirstStage(q);
      FirstStageMaximal(Stored(), Diffs(), q);
      var diffPos, eq, bigSmall := CompareStage(query, stored[pos]);
      assert Stored()[pos] == dataPtr[pos];
      SameBytes(query, stored[pos]);
      pos, smallerThanNode := AfterComparison(q, pos, diffPos, eq, bigSmall, predecessor);
      hit := eq;
      assert hit ==> Stored()[pos] == dataPtr[pos];
      SameBytes(query, stored[pos]);
      AmongBytes(query, stored, Stored());
    }

    // ----------------------------------------------------------------------------------
    // Insertion and removal
    // ----------------------------------------------------------------------------------

    /** Shifts keys and differences up and puts the new key at its rank and the difference of the search
        on the side where the key was compared. */
    method Insert2BlindiNodeInPosition(position: nat, q: Key, smallerThanNode: bool, diffPos: nat, rightLeft: bool, ghost probe: nat)
      requires Valid() && 0 < len < slots && |q| == keyBits
      requires Probes(Stored(), Diffs(), q, probe, diffPos) && rightLeft == q[diffPos]
      requires smallerThanNode == (Rank(Diffs(), probe, diffPos, rightLeft) == 0)
      requires position == if smallerThanNode then 0 else Rank(Diffs(), probe, diffPos, rightLeft) - 1
      modifies this, dataPtr, blindiKeys
      ensures Valid() && len == old(len) + 1
      ensures Stored() == InsertedAt(old(Stored()), Rank(old(Diffs()), probe, diffPos, rightLeft), q)
      ensures Diffs() == InsertedAt(old(Diffs()), NewDiffAt(Rank(old(Diffs()), probe, diffPos, rightLeft), rightLeft), diffPos)
    {
      hide Adjacent, Rank, InsertedAt, Probes;
      ProbeInside(Stored(), Diffs(), q, probe, diffPos);
      InsertAdjacent(Stored(), Diffs(), q, probe, diffPos);
      NewNeighbours(Stored(), Diffs(), q, probe, diffPos, Rank(Diffs(), probe, diffPos, rightLeft));
      var at := position + 1 - (if smallerThanNode then 1 else 0);
      ShiftUp(dataPtr, at, len, q);
      ShiftUp(blindiKeys, if rightLeft then position else at, len - 1, diffPos);
      len := len + 1;
    }

    /** Inserts a key that is not stored at its rank; refuses a stored key and a full node. */
    method Insert2BlindiNodeWithKey(q: Key) returns (result: InsertResult)
      requires Valid() && |q| == keyBits && 0 < slots
      modifies this, dataPtr, blindiKeys
      ensures Valid()
      ensures result == if old(len) == slots then InsertOverflow
                        else if q in old(Stored()) then InsertDuplicatedKey
                        else InsertSuccess
      ensures result != InsertSuccess ==> Stored() == old(Stored())
      ensures Uniform(old(Stored()), keyBits)
      ensures result == InsertSuccess ==>
                exists r :: IsRank(old(Stored()), keyBits, q, r) && Stored() == InsertedAt(old(Stored()), r, q)
    {
      hide Adjacent, Rank;
      ghost var before := Stored();
      StoredUniform();
      if len == slots {
        return InsertOverflow;
      }
      if len == 0 {
        dataPtr[0] := q;
        len := len + 1;
        OneKey(q, keyBits);
        assert Stored() == [q] && blindiKeys[..0] == [];
        assert IsRank(before, keyBits, q, 0) && Stored() == InsertedAt(before, 0, q);
        return InsertSuccess;
      }
      var position, hit, smallerThanNode, diffPos, rightLeft, probe := BlindiNodeSearch(q, true);
      if hit {
        return InsertDuplicatedKey;
      }
      ghost var r := Rank(Diffs(), probe, diffPos, rightLeft);
      Insert2BlindiNodeInPosition(position, q, smallerThanNode, diffPos, rightLeft, probe);
      assert IsRank(before, keyBits, q, r) && Stored() == InsertedAt(before, r, q);
      return InsertSuccess;
    }

    lemma StoredUniform()
      requires Valid()
      ensures Uniform(Stored(), keyBits) && StrictlySorted(Stored(), keyBits)
    {
      if len > 0 { DiffsBelow(); }
    }

    method RemoveFromBlindiNodeInPosition(position: nat) returns (result: RemoveResult)
      requires Valid() && position < len
      modifies this, dataPtr, blindiKeys
      ensures Valid() && len == old(len) - 1 && Stored() == RemovedAt(old(Stored()), position)
      ensures result == if len == 0 then RemoveNodeEmpty else RemoveSuccess
      ensures len > 0 ==> Diffs() == DiffsWithout(old(Diffs()), position)
    {
      hide Adjacent, RemovedAt, DiffsWithout;
      ghost var keys, n := Stored(), len;
      if position == len - 1 || len <= 2 {
        if len > 2 || (len == 2 && position == 1) {
          RemoveAdjacent(keys, Diffs(), keyBits, position);
          EdgeRemoved(keys, Diffs());
          blindiKeys[position - 1] := 0;
          len := len - 1;
          assert dataPtr[..n - 1] == keys[..n - 1] && blindiKeys[..n - 2] == old(Diffs())[..n - 2];
          return RemoveSuccess;
        }
        if len == 2 {
          RemoveAdjacent(keys, Diffs(), keyBits, position);
          EdgeRemoved(keys, Diffs());
          blindiKeys[0] := 0;
          dataPtr[0] := dataPtr[1];
          len := 1;
          assert dataPtr[..1] == keys[1..] && blindiKeys[..0] == old(Diffs())[1..];
          return RemoveSuccess;
        }
        len := 0;
        OnlyRemoved(keys);
        return RemoveNodeEmpty;
      }
      RemoveInside(position);
      return RemoveSuccess;
    }

    /** Removal in front of the last of at least three keys. */
    method RemoveInside(position: nat)
      requires Valid() && 2 < len && position < len - 1
      modifies this, dataPtr, blindiKeys
      ensures Valid() && len == old(len) - 1 && Stored() == RemovedAt(old(Stored()), position)
      ensures Diffs() == DiffsWithout(old(Diffs()), position)
    {
      hide Adjacent, RemovedAt, DiffsWithout;
      RemoveAdjacent(Stored(), Diffs(), keyBits, position);
      InnerRemoved(Diffs(), position);
      if position != 0 {
        blindiKeys[position - 1] := if blindiKeys[position] < blindiKeys[position - 1] then blindiKeys[position] else blindiKeys[position - 1];
      }
      assert blindiKeys[..len - 1] == if position == 0 then old(Diffs()) else old(Diffs())[position - 1 := blindiKeys[position - 1]];
      ShiftDown(dataPtr, position, len);
      ShiftDown(blindiKeys, position, len - 1);
      len := len - 1;
    }

    /** Removes exactly the given key, and reports when the node runs empty or under half full. */
    method RemoveFromBlindiNodeWithKey(q: Key) returns (result: RemoveResult)
      requires Valid() && |q| == keyBits && 0 < len
      modifies this, dataPtr, blindiKeys
      ensures Valid()
      ensures result == RemoveKeyNotFound <==> q !in old(Stored())
      ensures result == RemoveKeyNotFound ==> Stored() == old(Stored())
      ensures result != RemoveKeyNotFound ==>
                exists i :: 0 <= i < old(len) && old(Stored())[i] == q && Stored() == RemovedAt(old(Stored()), i)
      ensures result == RemoveNodeEmpty <==> result != RemoveKeyNotFound && len == 0
      ensures result == RemoveUnderflow ==> 0 < len < slots / 2
      ensures result == RemoveSuccess ==> slots / 2 <= len
    {
      hide Adjacent;
      ghost var before := Stored();
      var position, hit, _, _, _, _ := BlindiNodeSearch(q, false);
      if !hit {
        return RemoveKeyNotFound;
      }
      result := RemoveFromBlindiNodeInPosition(position);
      assert before[position] == q && Stored() == RemovedAt(before, position);
      if len < slots / 2 && result == RemoveSuccess {
        return RemoveUnderflow;
      }
    }

    // ----------------------------------------------------------------------------------
    // Splitting and merging
    // ----------------------------------------------------------------------------------

    ghost predicate Apart(other: LinearBlindiNode)
    {
      this != other && keyBits == other.keyBits && slots == other.slots && dataPtr != other.dataPtr && blindiKeys != other.blindiKeys
    }

    /** Moves the upper half of a full node into a new one. */
    method SplitBlindiNode(newNode: LinearBlindiNode)
      requires Valid() && len == slots && 2 <= slots && newNode.Shaped() && Apart(newNode)
      modifies this, newNode, newNode.dataPtr, newNode.blindiKeys
      ensures Valid() && newNode.Valid()
      ensures Stored() == old(Stored())[..slots / 2] && newNode.Stored() == old(Stored())[slots / 2..]
    {
      hide Adjacent;
      var half := slots / 2;
      ghost var keys, diffs := Stored(), Diffs();
      SliceAdjacent(keys, diffs, keyBits, 0, half);
      SliceAdjacent(keys, diffs, keyBits, half, slots);
      CopyBackward(dataPtr, half, slots, newNode.dataPtr, half);
      CopyBackward(blindiKeys, half, slots - 1, newNode.blindiKeys, half);
      newNode.len := half;
      len := half;
      assert newNode.dataPtr[..half] == keys[half..slots] && dataPtr[..half] == keys[0..half];
      assert newNode.blindiKeys[..half - 1] == diffs[half..slots - 1] && blindiKeys[..half - 1] == diffs[0..half - 1];
    }

    /** Appends the keys of a node whose keys all follow; one comparison gives the difference between. */
    method MergeBlindiNodes(right: LinearBlindiNode)
      requires Valid() && right.Valid() && Apart(right)
      requires 0 < len && 0 < right.len && len + right.len <= slots
      requires Uniform(Stored() + right.Stored(), keyBits) && StrictlySorted(Stored() + right.Stored(), keyBits)
      modifies this, dataPtr, blindiKeys
      ensures Valid() && right.Valid()
      ensures Stored() == old(Stored()) + old(right.Stored()) && right.Stored() == old(right.Stored())
    {
      hide Adjacent;
      var n1, n2 := len, right.len;
      ghost var k1, d1, k2, d2 := Stored(), Diffs(), right.Stored(), right.Diffs();
      LastBeforeFirst(k1, k2, keyBits);
      ConcatAdjacent(k1, d1, k2, d2, keyBits);
      CopyForward(right.blindiKeys, 0, n2 - 1, blindiKeys, n1);
      CopyForward(right.dataPtr, 0, n2, dataPtr, n1);
      blindiKeys[n1 - 1] := Diff(dataPtr[n1 - 1], right.dataPtr[0]);
      len := n1 + n2;
      assert dataPtr[..n1 + n2] == k1 + k2;
      assert blindiKeys[..n1 + n2 - 1] == d1 + [Diff(k1[n1 - 1], k2[0])] + d2;
    }
  }

  lemma OneKey(q: Key, bits: nat)
    requires |q| == bits
    ensures Adjacent([q], [], bits)
  {
  }

  lemma AmongBytes(a: seq<bv8>, stored: seq<seq<bv8>>, keys: seq<Key>)
    requires |keys| == |stored| && forall i :: 0 <= i < |keys| ==> |stored[i]| == |a| && BitsOf(stored[i]) == keys[i]
    ensures a in stored <==> BitsOf(a) in keys
  {
    hide BitsOf;
    if BitsOf(a) in keys {
      var i :| 0 <= i < |keys| && keys[i] == BitsOf(a);
      SameBytes(a, stored[i]);
    }
    if a in stored {
      var i :| 0 <= i < |stored| && stored[i] == a;
      assert keys[i] == BitsOf(a);
    }
  }
}
