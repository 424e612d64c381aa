/** The node that stores its trie in preorder: branch bits and left-leaf counts. */
module SubTrieNode {
  import opened Keys
  import opened NodeArrays
  import opened Trie
  import opened TrieEdits
  import opened Preorder
  import opened PreorderSplit
  import opened SubTrieSplit
  import opened SubTrieJoin

  class SubTrieBlindiNode {
    const slots: nat      // NUM_SLOTS
    const keyBits: nat
    const keyPtr: array<Key>
    const blindiKeys: array<nat>
    const subtrieArray: array<nat>
    var validLen: nat
    ghost var trie: Trie  // the trie the arrays encode, once there is a key

    ghost predicate Shaped()
      reads this
    {
      && validLen <= slots && slots % 2 == 0 && 0 < slots
      && keyPtr.Length == slots
      && blindiKeys.Length == slots - 1 && subtrieArray.Length == slots - 1
      && blindiKeys != subtrieArray
    }

    ghost predicate Valid()
      reads this, keyPtr, blindiKeys, subtrieArray
    {
      && Shaped()
      && (validLen > 0 ==>
          && WellFormed(trie, keyBits)
          && Size(trie) == validLen
          && keyPtr[..validLen] == Contents(trie)
          && blindiKeys[..validLen - 1] == Bits(trie)
          && subtrieArray[..validLen - 1] == Counts(trie))
    }

    /** The stored keys, in order. */
    ghost function Stored(): (ks: seq<Key>)
      requires Shaped()
      reads this, keyPtr
    {
      keyPtr[..validLen]
    }

    lemma EntriesInPlace()
      requires Valid() && validLen > 0
      ensures At(trie, blindiKeys[..], subtrieArray[..], 0)
    {
      assert blindiKeys[..][..validLen - 1] == blindiKeys[..validLen - 1];
      assert subtrieArray[..][..validLen - 1] == subtrieArray[..validLen - 1];
      AtStart(trie, blindiKeys[..], subtrieArray[..]);
    }

    // ----------------------------------------------------------------------------------
    // Search
    // ----------------------------------------------------------------------------------

    method SearchFirstStage(q: Key) returns (keyPtrPos: nat)
      requires Valid() && validLen > 0 && |q| == keyBits
      ensures keyPtrPos == Descend(trie, q)
    {
      hide Contents, Bits, Counts, WellFormed, Descend;
      keyPtrPos := 0;
      var blindiKeyPos: nat := 0;
      var n := validLen - 1;
      ghost var u := trie;
      EntriesInPlace();
      while n > 0
        invariant WellFormed(u, keyBits) && n == Size(u) - 1
        invariant At(u, blindiKeys[..], subtrieArray[..], blindiKeyPos)
        invariant keyPtrPos + Descend(u, q) == Descend(trie, q)
        decreases n
      {
        DescendStep(u, q);
        var count := subtrieArray[blindiKeyPos];
        if q[blindiKeys[blindiKeyPos]] {
          u := u.right;
          keyPtrPos := keyPtrPos + count;
          n := n - count;
          blindiKeyPos := blindiKeyPos + count;
        } else {
          u := u.left;
          n := count - 1;
          blindiKeyPos := blindiKeyPos + 1;
        }
      }
      DescendStep(u, q);
    }

    method SearchSecondStage(q: Key, diffPos: nat, largeSmall: bool, firstStagePos: nat)
      returns (keyPtrPos: nat, smallerThanNode: bool)
      requires Valid() && validLen > 0 && |q| == keyBits
      requires firstStagePos == Descend(trie, q)
      requires Probed(trie, q, diffPos) && largeSmall == q[diffPos]
      ensures smallerThanNode <==> Rank(trie, q, diffPos) == 0
      ensures smallerThanNode ==> keyPtrPos == 0
      ensures !smallerThanNode ==> keyPtrPos == Rank(trie, q, diffPos) - 1
    {
      hide Contents, Bits, Counts;
      keyPtrPos := 0;
      smallerThanNode := false;
      var blindiKeyPos: nat := 0;
      var n := validLen - 1;
      var k := firstStagePos;
      ghost var u := trie;
      EntriesInPlace();
      while n > 0 && blindiKeys[blindiKeyPos] < diffPos
        invariant Probed(u, q, diffPos) && n == Size(u) - 1
        invariant At(u, blindiKeys[..], subtrieArray[..], blindiKeyPos)
        invariant k == Descend(u, q)
        invariant keyPtrPos + Rank(u, q, diffPos) == Rank(trie, q, diffPos)
        decreases n
      {
        ProbedSide(u, q, diffPos);
        var count := subtrieArray[blindiKeyPos];
        if k >= count {
          u := u.right;
          k := k - count;
          keyPtrPos := keyPtrPos + count;
          n := n - count;
          blindiKeyPos := blindiKeyPos + count;
        } else {
          u := u.left;
          n := count - 1;
          blindiKeyPos := blindiKeyPos + 1;
        }
      }
      if largeSmall {
        return keyPtrPos + n, false;
      }
      if keyPtrPos == 0 {
        smallerThanNode := true;
      } else {
        keyPtrPos := keyPtrPos - 1;
      }
    }

    /** Point search reports a hit exactly when the key is stored; predecessor search returns the
        position of the largest key not greater than the query, or flags that there is none. */
    method SearchBlindiNode(q: Key, predecessor: bool)
      returns (pos: nat, hit: bool, smallerThanNode: bool, diffPos: nat, largeSmall: bool)
      requires Valid() && validLen > 0 && |q| == keyBits
      ensures pos < validLen
      ensures hit <==> q in Stored()
      ensures hit ==> Stored()[pos] == q && !smallerThanNode
      ensures !predecessor ==> pos == Descend(trie, q) && !smallerThanNode
      ensures !hit && predecessor ==> Probed(trie, q, diffPos) && largeSmall == q[diffPos]
      ensures !hit && predecessor ==> smallerThanNode == (Rank(trie, q, diffPos) == 0)
      ensures !hit && predecessor ==> pos == if smallerThanNode then 0 else Rank(trie, q, diffPos) - 1
      ensures predecessor ==> Uniform(Stored(), keyBits)
      ensures predecessor ==> IsRank(Stored(), keyBits, q, if smallerThanNode then 0 else pos + 1)
    {
      smallerThanNode := false;
      pos := 0;
      if validLen > 1 {
        pos := SearchFirstStage(q);
      }
      var dbKey := keyPtr[pos];
      WellFormedUniform(trie, keyBits);
      assert dbKey == Contents(trie)[pos];
      DescendHits(trie, q);
      diffPos, hit, largeSmall := Diff(q, dbKey), q == dbKey, Less(dbKey, q);
      if hit {
        Sorted(trie, keyBits);
        HitIsRank(Contents(trie), keyBits, q, pos);
      }
      if !predecessor || hit {
        return;
      }
      DescendProbes(trie, q);
      DiffSymmetric(q, dbKey);
      pos, smallerThanNode := SearchSecondStage(q, diffPos, largeSmall, pos);
      RankCorrect(trie, q, diffPos);
    }

    // ----------------------------------------------------------------------------------
    // Insertion
    // ----------------------------------------------------------------------------------

    /** The first loop of `Insert2BlindiNodeInPosition`: goes down to the branch above which the
        new one belongs and counts the new key in at every branch that has it on the left.
        What is missing afterwards is one entry at `blindiKeyPos`. */
    method CountIn(q: Key, diffPos: nat, largeSmall: bool, smallerThanNode: bool, searchPos: nat)
      returns (blindiKeyPos: nat, newCount: nat)
      requires Size(trie) == validLen <= blindiKeys.Length == subtrieArray.Length
      requires blindiKeys != subtrieArray
      requires blindiKeys[..validLen - 1] == Bits(trie) && subtrieArray[..validLen - 1] == Counts(trie)
      requires diffPos < |q| && Probed(trie, q, diffPos) && largeSmall == q[diffPos]
      requires smallerThanNode == (Rank(trie, q, diffPos) == 0)
      requires searchPos == if smallerThanNode then 0 else Rank(trie, q, diffPos) - 1
      modifies subtrieArray
      ensures blindiKeyPos <= validLen - 1
      ensures InsertedAt<nat>(blindiKeys[..validLen - 1], blindiKeyPos, diffPos) == Bits(Insert(trie, q, diffPos))
      ensures InsertedAt<nat>(subtrieArray[..validLen - 1], blindiKeyPos, newCount) == Counts(Insert(trie, q, diffPos))
    {
      hide *;
      blindiKeyPos := 0;
      var n: nat, k: int := validLen - 1, searchPos;
      var shift := (if largeSmall then 0 else 1) - (if smallerThanNode then 1 else 0);
      ghost var u, bB: seq<nat>, aB: seq<nat>, bC: seq<nat>, aC: seq<nat> := trie, [], [], [], [];
      ghost var bits: seq<nat>, counts: seq<nat> := blindiKeys[..validLen - 1], subtrieArray[..validLen - 1];
      RankBounds(trie, q, diffPos);
      CountingStarts(trie, q, diffPos);
      CountingHere(trie, u, q, diffPos, bits, counts, bB, aB, bC, aC);
      while n > 0 && blindiKeys[blindiKeyPos] < diffPos
        invariant counts == subtrieArray[..validLen - 1]
        invariant n == Size(u) - 1 && blindiKeyPos == |bB| == |bC| && blindiKeyPos <= validLen - 1
        invariant n > 0 ==> blindiKeyPos < validLen - 1
        invariant blindiKeyPos == 0 ==> n == validLen - 1
        invariant Counting(trie, u, q, diffPos, bits, counts, bB, aB, bC, aC)
        invariant k + shift == Rank(u, q, diffPos) - (if largeSmall then 1 else 0)
        decreases n
      {
        CountingHere(trie, u, q, diffPos, bits, counts, bB, aB, bC, aC);
        var count := subtrieArray[blindiKeyPos];
        if k + shift >= count {
          CountingRight(trie, u, q, diffPos, bits, counts, bB, aB, bC, aC);
          k := k - count;
          n := n - count;
          bB, bC := bB + [u.bit] + Bits(u.left), bC + [Size(u.left)] + Counts(u.left);
          blindiKeyPos := blindiKeyPos + count;
          u := u.right;
        } else {
          CountingLeft(trie, u, q, diffPos, bits, counts, bB, aB, bC, aC);
          n := count - 1;
          subtrieArray[blindiKeyPos] := count + 1;
          counts := counts[blindiKeyPos := count + 1];
          bB, aB, bC, aC := bB + [u.bit], Bits(u.right) + aB, bC + [count + 1], Counts(u.right) + aC;
          blindiKeyPos := blindiKeyPos + 1;
          u := u.left;
        }
        CountingHere(trie, u, q, diffPos, bits, counts, bB, aB, bC, aC);
      }
      CountingHere(trie, u, q, diffPos, bits, counts, bB, aB, bC, aC);
      newCount := 1;
      if n > 0 && k + shift >= subtrieArray[blindiKeyPos] {
        newCount := if blindiKeyPos == 0 then validLen else k + 1;
      }
      CountingEnds(trie, u, q, diffPos, bits, counts, bB, aB, bC, aC);
    }

    method Insert2BlindiNodeInPosition(q: Key, diffPos: nat, largeSmall: bool, smallerThanNode: bool, searchPos: nat)
      requires Valid() && 0 < validLen < slots
      requires |q| == keyBits && Probed(trie, q, diffPos) && largeSmall == q[diffPos]
      requires smallerThanNode == (Rank(trie, q, diffPos) == 0)
      requires searchPos == if smallerThanNode then 0 else Rank(trie, q, diffPos) - 1
      modifies this, keyPtr, blindiKeys, subtrieArray
      ensures Valid() && validLen == old(validLen) + 1
      ensures trie == Insert(old(trie), q, diffPos)
      ensures Stored() == InsertedAt(old(Stored()), Rank(old(trie), q, diffPos), q)
    {
      hide Rank, Insert, Contents, Bits, Counts, WellFormed, InsertedAt;
      var len := validLen;
      var blindiKeyPos, newCount := CountIn(q, diffPos, largeSmall, smallerThanNode, searchPos);
      ShiftUp(keyPtr, searchPos + 1 - (if smallerThanNode then 1 else 0), len, q);
      ShiftUp(subtrieArray, blindiKeyPos, len - 1, newCount);
      ShiftUp(blindiKeys, blindiKeyPos, len - 1, diffPos);
      InsertCorrect(trie, q, diffPos);
      trie := Insert(trie, q, diffPos);
      validLen := len + 1;
    }

    method FirstInsert(q: Key)
      requires Shaped() && |q| == keyBits && 0 < slots && validLen == 0
      modifies this, keyPtr, blindiKeys, subtrieArray
      ensures Valid() && Stored() == [q]
    {
      blindiKeys[0] := 0;
      subtrieArray[0] := 0;
      keyPtr[0] := q;
      validLen := 1;
      trie := Leaf(q);
    }

    /** Inserts a key that is not stored at its rank; refuses a stored key and a full node. */
    method Insert2BlindiNodeWithKey(q: Key) returns (result: InsertResult)
      requires Valid() && |q| == keyBits && 0 < slots
      modifies this, keyPtr, blindiKeys, subtrieArray
      ensures Valid()
      ensures result == if old(validLen) == slots then InsertOverflow
                        else if q in old(Stored()) then InsertDuplicatedKey
                        else InsertSuccess
      ensures result != InsertSuccess ==> Stored() == old(Stored())
      ensures Uniform(old(Stored()), keyBits)
      ensures result == InsertSuccess ==>
                exists r :: IsRank(old(Stored()), keyBits, q, r) && Stored() == InsertedAt(old(Stored()), r, q)
    {
      ghost var before := Stored();
      StoredUniform();
      if validLen == slots {
        return InsertOverflow;
      }
      if validLen == 0 {
        FirstInsert(q);
        assert IsRank(before, keyBits, q, 0) && Stored() == InsertedAt(before, 0, q);
        return InsertSuccess;
      }
      var pos, hit, smallerThanNode, diffPos, largeSmall := SearchBlindiNode(q, true);
      if hit {
        return InsertDuplicatedKey;
      }
      ghost var r := Rank(trie, q, diffPos);
      Insert2BlindiNodeInPosition(q, diffPos, largeSmall, smallerThanNode, pos);
      assert IsRank(before, keyBits, q, r) && Stored() == InsertedAt(before, r, q);
      return InsertSuccess;
    }

    lemma StoredUniform()
      requires Valid()
      ensures Uniform(Stored(), keyBits)
      ensures StrictlySorted(Stored(), keyBits)
    {
      if validLen > 0 { Sorted(trie, keyBits); }
    }

    // ----------------------------------------------------------------------------------
    // Removal
    // ----------------------------------------------------------------------------------

    /** The loop of `RemoveFromBlindiNodeInPosition`: goes down to the parent of the key and
        counts the key out at every branch that has it on the left. */
    method CountOut(removePosition: nat) returns (blindiKeyPos: nat)
      requires trie.Node? && removePosition < Size(trie) == validLen <= blindiKeys.Length + 1 && blindiKeys.Length == subtrieArray.Length
      requires blindiKeys != subtrieArray
      requires blindiKeys[..validLen - 1] == Bits(trie) && subtrieArray[..validLen - 1] == Counts(trie)
      modifies subtrieArray
      ensures blindiKeyPos < validLen - 1
      ensures RemovedAt<nat>(blindiKeys[..validLen - 1], blindiKeyPos) == Bits(Remove(trie, removePosition))
      ensures RemovedAt<nat>(subtrieArray[..validLen - 1], blindiKeyPos) == Counts(Remove(trie, removePosition))
    {
      hide *;
      var keyPtrPos := 0;
      blindiKeyPos := 0;
      var n: nat := validLen - 1;
      var k: nat := removePosition;
      ghost var u, bB: seq<nat>, aB: seq<nat>, bC: seq<nat>, aC: seq<nat> := trie, [], [], [], [];
      ghost var bits: seq<nat>, counts: seq<nat> := blindiKeys[..validLen - 1], subtrieArray[..validLen - 1];
      DiscountingStarts(trie, removePosition);
      DiscountingHere(trie, u, removePosition, k, bits, counts, bB, aB, bC, aC);
      while n > 0
        invariant counts == subtrieArray[..validLen - 1]
        invariant blindiKeyPos == |bB| == |bC| < validLen - 1
        invariant keyPtrPos + k == removePosition
        invariant n > 0 ==> u.Node? && n == Size(u) - 1
        invariant n > 0 ==> Discounting(trie, u, removePosition, k, bits, counts, bB, aB, bC, aC)
        invariant n == 0 ==> RemovedAt<nat>(bits, blindiKeyPos) == Bits(Remove(trie, removePosition))
        invariant n == 0 ==> RemovedAt<nat>(counts, blindiKeyPos) == Counts(Remove(trie, removePosition))
        decreases n
      {
        DiscountingHere(trie, u, removePosition, k, bits, counts, bB, aB, bC, aC);
        var count := subtrieArray[blindiKeyPos];
        if keyPtrPos + count < removePosition + 1 {
          n := n - count;
          if n > 0 {
            DiscountingRight(trie, u, removePosition, k, bits, counts, bB, aB, bC, aC);
            bB, bC := bB + [u.bit] + Bits(u.left), bC + [Size(u.left)] + Counts(u.left);
            blindiKeyPos := blindiKeyPos + count;
            u := u.right;
          } else {
            DiscountingEnds(trie, u, removePosition, k, bits, counts, bB, aB, bC, aC, count);
            assert counts[blindiKeyPos := count] == counts;
          }
          k := k - count;
          keyPtrPos := keyPtrPos + count;
        } else {
          n := count - 1;
          if n > 0 {
            DiscountingLeft(trie, u, removePosition, k, bits, counts, bB, aB, bC, aC);
            bB, aB, bC, aC := bB + [u.bit], Bits(u.right) + aB, bC + [count - 1], Counts(u.right) + aC;
            u := u.left;
          } else {
            DiscountingEnds(trie, u, removePosition, k, bits, counts, bB, aB, bC, aC, count - 1);
          }
          subtrieArray[blindiKeyPos] := count - 1;
          counts := counts[blindiKeyPos := count - 1];
          blindiKeyPos := blindiKeyPos + if n > 0 then 1 else 0;
        }
        if n > 0 {
          DiscountingHere(trie, u, removePosition, k, bits, counts, bB, aB, bC, aC);
        }
      }
    }

    method RemoveFromBlindiNodeInPosition(removePosition: nat)
      requires Valid() && 2 <= validLen && removePosition < validLen
      modifies this, keyPtr, blindiKeys, subtrieArray
      ensures Valid() && validLen == old(validLen) - 1
      ensures trie == Remove(old(trie), removePosition)
      ensures Stored() == RemovedAt(old(Stored()), removePosition)
    {
      hide Remove, Contents, Bits, Counts, WellFormed, RemovedAt;
      var len := validLen;
      var blindiKeyPos := CountOut(removePosition);
      ShiftDown(keyPtr, removePosition, len);
      ShiftDown(subtrieArray, blindiKeyPos, len - 1);
      ShiftDown(blindiKeys, blindiKeyPos, len - 1);
      RemoveCorrect(trie, removePosition, keyBits);
      trie := Remove(trie, removePosition);
      validLen := len - 1;
    }

    /** Removes exactly the given key, and reports when the node runs empty or under half full. */
    method RemoveFromBlindiNodeWithKey(q: Key) returns (result: RemoveResult)
      requires Valid() && |q| == keyBits && 0 < validLen
      modifies this, keyPtr, blindiKeys, subtrieArray
      ensures Valid()
      ensures result == RemoveKeyNotFound <==> q !in old(Stored())
      ensures result == RemoveKeyNotFound ==> Stored() == old(Stored())
      ensures result != RemoveKeyNotFound ==>
                exists i :: 0 <= i < old(validLen) && old(Stored())[i] == q && Stored() == RemovedAt(old(Stored()), i)
      ensures result == RemoveNodeEmpty ==> validLen == 0
      ensures result == RemoveUnderflow ==> 0 < validLen < slots / 2
      ensures result == RemoveSuccess ==> 0 < validLen && slots / 2 <= validLen
    {
      ghost var before := Stored();
      var pos, hit, _, _, _ := SearchBlindiNode(q, false);
      if !hit {
        return RemoveKeyNotFound;
      }
      if validLen == 1 {
        validLen := 0;
        assert before[0] == q && Stored() == RemovedAt(before, 0);
        return RemoveNodeEmpty;
      }
      RemoveFromBlindiNodeInPosition(pos);
      assert before[pos] == q && Stored() == RemovedAt(before, pos);
      if validLen < slots / 2 {
        return RemoveUnderflow;
      }
      return RemoveSuccess;
    }

    // ----------------------------------------------------------------------------------
    // Splitting and merging
    // ----------------------------------------------------------------------------------

    /** Two nodes of one kind that share no array. */
    ghost predicate Apart(other: SubTrieBlindiNode)
    {
      && this != other && keyBits == other.keyBits && slots == other.slots
      && keyPtr != other.keyPtr
      && blindiKeys != other.blindiKeys && blindiKeys != other.subtrieArray
      && subtrieArray != other.blindiKeys && subtrieArray != other.subtrieArray
    }

    /** Splits a node with an even number of keys into its two halves. */
    method SplitBlindiNode(nodeSmall: SubTrieBlindiNode, nodeLarge: SubTrieBlindiNode)
      requires Valid() && 2 <= validLen && validLen % 2 == 0
      requires nodeSmall.Shaped() && nodeLarge.Shaped()
      requires Apart(nodeSmall) && Apart(nodeLarge) && nodeSmall.Apart(nodeLarge)
      modifies nodeSmall, nodeSmall.keyPtr, nodeSmall.blindiKeys, nodeSmall.subtrieArray
      modifies nodeLarge, nodeLarge.keyPtr, nodeLarge.blindiKeys, nodeLarge.subtrieArray
      ensures Valid() && nodeSmall.Valid() && nodeLarge.Valid()
      ensures Stored() == old(Stored())
      ensures nodeSmall.Stored() == Stored()[..validLen / 2]
      ensures nodeLarge.Stored() == Stored()[validLen / 2..]
    {
      hide Contents, Bits, Counts, WellFormed, Take, Drop;
      var mid := validLen / 2;
      CopyHalves(keyPtr, nodeSmall.keyPtr, nodeLarge.keyPtr, mid);
      SplitEntries(trie, mid, blindiKeys, subtrieArray,
                   nodeSmall.blindiKeys, nodeSmall.subtrieArray, nodeLarge.blindiKeys, nodeLarge.subtrieArray);
      TakeCorrect(trie, mid, keyBits);
      DropCorrect(trie, mid, keyBits);
      nodeSmall.trie, nodeLarge.trie := Take(trie, mid), Drop(trie, mid);
      nodeSmall.validLen := mid;
      nodeLarge.validLen := mid;
    }

    /** What a caller can check before a merge: there is room for two more keys, or nothing to merge, or
        no left count, or the first left count happens to be the bit in which the keys at the boundary
        differ. */
    predicate MergesExactly(nodeLarge: SubTrieBlindiNode)
      requires Shaped() && nodeLarge.Shaped() && validLen + nodeLarge.validLen <= slots
      reads this, nodeLarge, keyPtr, nodeLarge.keyPtr, subtrieArray
    {
      || validLen + 2 <= slots || validLen <= 1 || nodeLarge.validLen == 0
      || (|keyPtr[validLen - 1]| == |nodeLarge.keyPtr[0]| && Diff(keyPtr[validLen - 1], nodeLarge.keyPtr[0]) == subtrieArray[0])
    }

    /** Appends the keys of a node whose keys all follow; either node may be empty.  The node is exact
        afterwards if and only if it was such a node; otherwise the bit of the boundary has been stored
        over the first left count, and the loop, if it stays within the arrays, goes by that. */
    method MergeBlindiNodes(nodeLarge: SubTrieBlindiNode) returns (completed: bool)
      requires Valid() && nodeLarge.Valid() && Apart(nodeLarge)
      requires validLen + nodeLarge.validLen <= slots
      requires Uniform(Stored() + nodeLarge.Stored(), keyBits)
      requires StrictlySorted(Stored() + nodeLarge.Stored(), keyBits)
      modifies this, keyPtr, blindiKeys, subtrieArray
      ensures nodeLarge.Valid() && nodeLarge.Stored() == old(nodeLarge.Stored())
      ensures Shaped() && (completed ==> Stored() == old(Stored()) + old(nodeLarge.Stored()))
      ensures completed && Valid() <==> old(MergesExactly(nodeLarge))
    {
      completed := true;
      if validLen == 0 {
        CopyNode(nodeLarge);
      } else if nodeLarge.validLen > 0 {
        completed := MergeNonEmpty(nodeLarge);
      }
    }

    method CopyNode(nodeLarge: SubTrieBlindiNode)
      requires Shaped() && nodeLarge.Valid() && Apart(nodeLarge)
      modifies this, keyPtr, blindiKeys, subtrieArray
      ensures Valid() && nodeLarge.Valid()
      ensures Stored() == nodeLarge.Stored() == old(nodeLarge.Stored())
    {
      hide Contents, Bits, Counts, WellFormed;
      var n := nodeLarge.validLen;
      CopyForward(nodeLarge.keyPtr, 0, n, keyPtr, 0);
      if n > 0 {
        CopyForward(nodeLarge.blindiKeys, 0, n - 1, blindiKeys, 0);
        CopyForward(nodeLarge.subtrieArray, 0, n - 1, subtrieArray, 0);
      }
      validLen := n;
      trie := nodeLarge.trie;
    }

    method MergeNonEmpty(nodeLarge: SubTrieBlindiNode) returns (completed: bool)
      requires Valid() && nodeLarge.Valid() && Apart(nodeLarge)
      requires 0 < validLen && 0 < nodeLarge.validLen && validLen + nodeLarge.validLen <= slots
      requires Uniform(Stored() + nodeLarge.Stored(), keyBits)
      requires StrictlySorted(Stored() + nodeLarge.Stored(), keyBits)
      modifies this, keyPtr, blindiKeys, subtrieArray
      ensures nodeLarge.Valid() && nodeLarge.Stored() == old(nodeLarge.Stored())
      ensures Shaped() && (completed ==> Stored() == old(Stored()) + old(nodeLarge.Stored()))
      ensures completed && Valid() <==> old(MergesExactly(nodeLarge))
    {
      hide *;
      ValidParts();
      nodeLarge.ValidParts();
      ApartParts(nodeLarge);
      var n1, n2 := validLen, nodeLarge.validLen;
      BoundaryOf(trie, nodeLarge.trie, keyBits, Stored(), nodeLarge.Stored());
      assert Stored()[n1 - 1] == keyPtr[n1 - 1] && nodeLarge.Stored()[0] == nodeLarge.keyPtr[0];
      MergesExactlyIs(nodeLarge);
      var d := Diff(keyPtr[n1 - 1], nodeLarge.keyPtr[0]);
      AppendKeys(nodeLarge.keyPtr, n2, keyPtr, n1);
      completed := JoinEntries(trie, nodeLarge.trie, n1, n2, d, blindiKeys, subtrieArray, nodeLarge.blindiKeys, nodeLarge.subtrieArray);
      if completed {
        JoinWellFormed(trie, nodeLarge.trie, d, keyBits);
        JoinContents(trie, nodeLarge.trie, d);
        trie := Join(trie, nodeLarge.trie, d);
        validLen := n1 + n2;
        ValidIs();
      } else {
        StillShaped(n1);
      }
    }

    lemma ValidParts()
      requires Valid() && validLen > 0
      ensures Shaped() && validLen <= slots == keyPtr.Length && blindiKeys.Length == subtrieArray.Length == slots - 1 && blindiKeys != subtrieArray && slots % 2 == 0
      ensures WellFormed(trie, keyBits) && Size(trie) == validLen && Stored() == keyPtr[..validLen] == Contents(trie)
      ensures blindiKeys[..validLen - 1] == Bits(trie) && subtrieArray[..validLen - 1] == Counts(trie)
    {
      hide WellFormed, Contents, Bits, Counts;
    }

    lemma ApartParts(other: SubTrieBlindiNode)
      requires Apart(other)
      ensures this != other && keyBits == other.keyBits && slots == other.slots && keyPtr != other.keyPtr
      ensures blindiKeys != other.blindiKeys && blindiKeys != other.subtrieArray
      ensures subtrieArray != other.blindiKeys && subtrieArray != other.subtrieArray
    {
    }

    lemma MergesExactlyIs(nodeLarge: SubTrieBlindiNode)
      requires Shaped() && nodeLarge.Shaped() && 0 < validLen && 0 < nodeLarge.validLen && validLen + nodeLarge.validLen <= slots
      requires |keyPtr[validLen - 1]| == |nodeLarge.keyPtr[0]|
      ensures MergesExactly(nodeLarge) <==>
                validLen < blindiKeys.Length || validLen == 1 || Diff(keyPtr[validLen - 1], nodeLarge.keyPtr[0]) == subtrieArray[0]
    {
      hide Diff;
    }

    lemma ValidIs()
      requires 0 < validLen <= slots == keyPtr.Length && blindiKeys.Length == subtrieArray.Length == slots - 1 && blindiKeys != subtrieArray && slots % 2 == 0
      requires WellFormed(trie, keyBits) && Size(trie) == validLen && keyPtr[..validLen] == Contents(trie)
      ensures Shaped() && Stored() == keyPtr[..validLen]
      ensures Valid() <==> blindiKeys[..validLen - 1] == Bits(trie) && subtrieArray[..validLen - 1] == Counts(trie)
    {
      hide WellFormed, Contents, Bits, Counts;
    }

    lemma StillShaped(n: nat)
      requires validLen == n <= slots == keyPtr.Length && 0 < slots && blindiKeys.Length == subtrieArray.Length == slots - 1 && blindiKeys != subtrieArray && slots % 2 == 0
      ensures Shaped()
    {
    }
  }

  /** One step of the blind descent. */
  lemma DescendStep(u: Trie, q: Key)
    requires WellFormed(u, |q|)
    ensures u.Leaf? ==> Descend(u, q) == 0
    ensures u.Node? ==> u.bit < |q| && WellFormed(u.left, |q|) && WellFormed(u.right, |q|)
    ensures u.Node? ==> Descend(u, q) == if q[u.bit] then Size(u.left) + Descend(u.right, q) else Descend(u.left, q)
  {
  }

  method AppendKeys(src: array<Key>, n: nat, dst: array<Key>, at: nat)
    requires src != dst && n <= src.Length && at + n <= dst.Length
    modifies dst
    ensures dst[..at + n] == old(dst[..at]) + src[..n]
  {
    CopyForward(src, 0, n, dst, at);
    Appended(dst[..at + n], old(dst[..at]), src[..n]);
  }

  method CopyHalves(keys: array<Key>, small: array<Key>, large: array<Key>, mid: nat)
    requires keys != small && keys != large && small != large
    requires 2 * mid <= keys.Length && mid <= small.Length && mid <= large.Length
    modifies small, large
    ensures small[..mid] == keys[..2 * mid][..mid] && large[..mid] == keys[..2 * mid][mid..]
  {
    var i := 0;
    while i < mid
      invariant 0 <= i <= mid
      invariant forall j :: 0 <= j < i ==> small[j] == keys[j] && large[j] == keys[j + mid]
    {
      small[i] := keys[i];
      large[i] := keys[i + mid];
      i := i + 1;
    }
  }

  lemma Appended(s: seq<Key>, a: seq<Key>, b: seq<Key>)
    requires |s| == |a| + |b| && s[..|a|] == a && s[|a|..] == b
    ensures s == a + b
  {
  }

  lemma BoundaryOf(t: Trie, u: Trie, bits: nat, a: seq<Key>, b: seq<Key>)
    requires WellFormed(t, bits) && WellFormed(u, bits) && a == Contents(t) && b == Contents(u)
    requires Uniform(a + b, bits) && StrictlySorted(a + b, bits)
    ensures |a| == Size(t) && |b| == Size(u)
    ensures |a[|a| - 1]| == |b[0]| == bits && a[|a| - 1] == Last(t) && b[0] == First(u)
    ensures Adjacent(t, u, Diff(a[|a| - 1], b[0]), bits)
  {
    var i, j := |a| - 1, |a|;
    assert (a + b)[i] == Last(t) && (a + b)[j] == First(u);
    assert Less((a + b)[i], (a + b)[j]);
  }
}
