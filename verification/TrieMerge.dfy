/** The loop that weaves the spines of two tries in the same arrays together. */
module TrieMerge {
  import opened Keys
  import opened Trie
  import opened TrieEdits
  import opened TrieLayout
  import opened TrieWalk
  import opened TrieSplice

  ghost function TableOf(bits: array<nat>, small: array<nat>, large: array<nat>, keys: array<Key>, area: nat): (tab: Table)
    reads bits, small, large, keys
  {
    Table(bits[..], small[..], large[..], keys[..], area)
  }

  lemma TableIs(bits: array<nat>, small: array<nat>, large: array<nat>, keys: array<Key>, area: nat)
    ensures TableOf(bits, small, large, keys, area) == Table(bits[..], small[..], large[..], keys[..], area)
  {
  }

  /** What the loop sees of its state. */
  lemma AtState(s: Shape, u: Shape, tab: Table, tab1: Table, d: nat, b: nat, i: nat, j: nat, bits: nat, sp: seq<nat>, lp: seq<nat>)
    requires Beside(s, u, tab) && Splicing(s, u, tab, tab1, d, b, i, j, bits)
    requires sp == PathTo(s, tab.area, Leaves(s) - 1) && lp == PathTo(u, tab.area, 0)
    ensures |tab1.small| == |tab.small| && |tab1.large| == |tab.large| && tab1.bits == tab.bits && tab1.area == tab.area
    ensures i <= SpineLength(s, true) && j <= SpineLength(u, false) && i < |sp| == SpineLength(s, true) + 1 && j < |lp| == SpineLength(u, false) + 1
    ensures var cs, cu := Spine(s, true, i), Spine(u, false, j);
            && sp[i] == Ptr(cs, tab.area) && lp[j] == Ptr(cu, tab.area) && Laid(cs, tab) && Laid(cu, tab)
            && (cs.KeyAt? <==> sp[i] >= tab.area) && (cu.KeyAt? <==> lp[j] >= tab.area)
            && (cs.Branch? ==> cs.slot == sp[i] && Slots(tab, sp[i]) && Slots(tab1, sp[i]) && sp[i] < |tab1.bits| && sp[i] < |tab1.large| && tab1.large[sp[i]] == Ptr(cs.large, tab.area) && tab1.bits[sp[i]] == tab.bits[sp[i]])
            && (cu.Branch? ==> cu.slot == lp[j] && Slots(tab, lp[j]) && Slots(tab1, lp[j]) && lp[j] < |tab1.bits| && lp[j] < |tab1.small| && tab1.small[lp[j]] == Ptr(cu.small, tab.area) && tab1.bits[lp[j]] == tab.bits[lp[j]])
            && (cs.Branch? ==> i < SpineLength(s, true) && Spine(s, true, i + 1) == cs.large && Laid(cs.large, tab))
            && (cu.Branch? ==> j < SpineLength(u, false) && Spine(u, false, j + 1) == cu.small && Laid(cu.small, tab))
  {
    SpineIsPath(s, true, tab.area, i);
    SpineIsPath(u, false, tab.area, j);
    if Spine(s, true, i).Branch? { SpineStep(s, true, i); }
    if Spine(u, false, j).Branch? { SpineStep(u, false, j); }
    hide Spliced, PathTo, Distinct, Branches, Adjacent, TrieOf;
    hide SpineLength, Spine;
  }

  /** What is known of a spine end: that it is a key, or else its branch bit. */
  ghost predicate EndIs(c: Shape, tab: Table, end: bool, bit: nat)
  {
    (end <==> c.KeyAt?) && (c.Branch? ==> c.slot < |tab.bits| && bit == tab.bits[c.slot])
  }

  /** Neither spine can have the smaller bit twice: equal bits cannot come next. */
  lemma NextDiffer(s: Shape, u: Shape, tab: Table, d: nat, bits: nat)
    requires Laid(s, tab) && Laid(u, tab) && Adjacent(TrieOf(s, tab), TrieOf(u, tab), d, bits)
    ensures !BNext(s, u, tab, d) && !SNext(s, u, tab) && s.Branch? && u.Branch? ==> tab.bits[u.slot] < tab.bits[s.slot]
  {
    if !BNext(s, u, tab, d) && !SNext(s, u, tab) {
      LargeStep(TrieOf(s, tab), TrieOf(u, tab), d, bits);
    }
  }

  /** What the tests of the loop see of two spine ends. */
  lemma Ends(c: Shape, cu: Shape, tab: Table)
    requires Laid(c, tab) && Laid(cu, tab)
    ensures c.KeyAt? <==> Ptr(c, tab.area) >= tab.area
    ensures cu.KeyAt? <==> Ptr(cu, tab.area) >= tab.area
    ensures c.Branch? ==> Ptr(c, tab.area) == c.slot < |tab.bits|
    ensures cu.Branch? ==> Ptr(cu, tab.area) == cu.slot < |tab.bits|
  {
  }

  /** After a step on the small side: the branch above has to point to whatever comes next. */
  method LinkSmall(blindiKeys: array<nat>, largePtr: array<nat>, prev: nat, next: nat, other: nat, endLarge: bool, curLarge: nat,
      diffPos: nat, b: nat, area: nat, ghost c: Shape, ghost cu: Shape, ghost tab: Table, ghost bits: nat)
    returns (endSmall: bool, nextSmall: nat, done: bool)
    requires blindiKeys != largePtr && blindiKeys[..] == tab.bits && area == tab.area
    requires Laid(c, tab) && Laid(cu, tab) && Adjacent(TrieOf(c, tab), TrieOf(cu, tab), diffPos, bits)
    requires next == Ptr(c, area) && other == Ptr(cu, area) && prev < largePtr.Length && largePtr[prev] == next
    requires EndIs(cu, tab, endLarge, curLarge)
    modifies largePtr
    ensures largePtr[..] == old(largePtr[..])[prev := TopPtr(c, cu, tab, diffPos, b)]
    ensures EndIs(c, tab, endSmall, nextSmall) && (done <==> BNext(c, cu, tab, diffPos))
  {
    Ends(c, cu, tab);
    NextDiffer(c, cu, tab, diffPos, bits);
    hide Laid, Adjacent, TrieOf, JoinShape;
    endSmall, nextSmall, done := false, 0, false;
    if next >= area {
      endSmall := true;
    } else {
      nextSmall := blindiKeys[next];
    }
    if (endSmall || diffPos < nextSmall) && (endLarge || diffPos < curLarge) {
      largePtr[prev] := b;
      done := true;
      return;
    }
    if endSmall || (!endLarge && nextSmall > curLarge) {
      largePtr[prev] := other;
    }
  }

  method LinkLarge(blindiKeys: array<nat>, smallPtr: array<nat>, prev: nat, next: nat, other: nat, endSmall: bool, curSmall: nat,
      diffPos: nat, b: nat, area: nat, ghost cs: Shape, ghost c: Shape, ghost tab: Table, ghost bits: nat)
    returns (endLarge: bool, nextLarge: nat, done: bool)
    requires blindiKeys != smallPtr && blindiKeys[..] == tab.bits && area == tab.area
    requires Laid(cs, tab) && Laid(c, tab) && Adjacent(TrieOf(cs, tab), TrieOf(c, tab), diffPos, bits)
    requires next == Ptr(c, area) && other == Ptr(cs, area) && prev < smallPtr.Length && smallPtr[prev] == next
    requires EndIs(cs, tab, endSmall, curSmall)
    modifies smallPtr
    ensures smallPtr[..] == old(smallPtr[..])[prev := TopPtr(cs, c, tab, diffPos, b)]
    ensures EndIs(c, tab, endLarge, nextLarge) && (done <==> BNext(cs, c, tab, diffPos))
  {
    Ends(cs, c, tab);
    hide Laid, Adjacent, TrieOf, JoinShape;
    endLarge, nextLarge, done := false, 0, false;
    if next >= area {
      endLarge := true;
    } else {
      nextLarge := blindiKeys[next];
    }
    if (endSmall || diffPos < curSmall) && (endLarge || diffPos < nextLarge) {
      smallPtr[prev] := b;
      done := true;
      return;
    }
    if endLarge || (!endSmall && nextLarge > curSmall) {
      smallPtr[prev] := other;
    }
  }

  lemma NextAdjacent(s: Shape, u: Shape, tab: Table, tab1: Table, d: nat, b: nat, i: nat, j: nat, bits: nat)
    requires Beside(s, u, tab) && Splicing(s, u, tab, tab1, d, b, i, j, bits)
    ensures i <= SpineLength(s, true) && j <= SpineLength(u, false)
    ensures var cs, cu := Spine(s, true, i), Spine(u, false, j);
            && Laid(cs, tab) && Laid(cu, tab)
            && (!BNext(cs, cu, tab, d) && SNext(cs, cu, tab) ==>
                  cs.Branch? && Laid(cs.large, tab) && Adjacent(TrieOf(cs.large, tab), TrieOf(cu, tab), d, bits))
            && (!BNext(cs, cu, tab, d) && !SNext(cs, cu, tab) ==>
                  cu.Branch? && Laid(cu.small, tab) && Adjacent(TrieOf(cs, tab), TrieOf(cu.small, tab), d, bits))
  {
    var cs, cu := Spine(s, true, i), Spine(u, false, j);
    if !BNext(cs, cu, tab, d) {
      if SNext(cs, cu, tab) { SmallStep(TrieOf(cs, tab), TrieOf(cu, tab), d, bits); } else { LargeStep(TrieOf(cs, tab), TrieOf(cu, tab), d, bits); }
    }
  }

  /** How the tests of the loop read off the two spine ends. */
  lemma TestsAre(cs: Shape, cu: Shape, tab: Table, d: nat, endSmall: bool, curSmall: nat, endLarge: bool, curLarge: nat)
    requires Laid(cs, tab) && Laid(cu, tab)
    requires EndIs(cs, tab, endSmall, curSmall)
    requires EndIs(cu, tab, endLarge, curLarge)
    ensures BNext(cs, cu, tab, d) <==> (endSmall || d < curSmall) && (endLarge || d < curLarge)
    ensures SNext(cs, cu, tab) <==> endLarge || (!endSmall && curSmall < curLarge)
  {
    hide Laid;
  }

  /** One turn of the loop. */
  method SpliceStep(blindiKeys: array<nat>, smallPtr: array<nat>, largePtr: array<nat>, keyPtr: array<Key>, area: nat,
      sp: seq<nat>, lp: seq<nat>, diffPos: nat, b: nat, i: nat, j: nat, endS: bool, curS: nat, endL: bool, curL: nat,
      ghost s: Shape, ghost u: Shape, ghost tab: Table, ghost bits: nat)
    returns (iSmall: nat, iLarge: nat, endSmall: bool, curSmall: nat, endLarge: bool, curLarge: nat, done: bool, ghost tab2: Table)
    requires blindiKeys != smallPtr && blindiKeys != largePtr && smallPtr != largePtr && blindiKeys[..] == tab.bits && area == tab.area
    requires sp == PathTo(s, area, Leaves(s) - 1) && lp == PathTo(u, area, 0) && Beside(s, u, tab)
    requires Splicing(s, u, tab, TableOf(blindiKeys, smallPtr, largePtr, keyPtr, area), diffPos, b, i, j, bits)
    requires i <= SpineLength(s, true) && j <= SpineLength(u, false)
    requires EndIs(Spine(s, true, i), tab, endS, curS) && EndIs(Spine(u, false, j), tab, endL, curL)
    requires !((endS || diffPos < curS) && (endL || diffPos < curL))
    modifies smallPtr, largePtr
    ensures iSmall <= SpineLength(s, true) && iLarge <= SpineLength(u, false) && i <= iSmall && j <= iLarge && iSmall + iLarge == i + j + 1
    ensures Splicing(s, u, tab, tab2, diffPos, b, iSmall, iLarge, bits) && tab2 == TableOf(blindiKeys, smallPtr, largePtr, keyPtr, area)
    ensures var cs, cu := Spine(s, true, iSmall), Spine(u, false, iLarge);
            && EndIs(cs, tab, endSmall, curSmall) && EndIs(cu, tab, endLarge, curLarge) && Laid(cs, tab) && Laid(cu, tab)
            && (done ==> BNext(cs, cu, tab, diffPos))
  {
    hide *;
    ghost var tab1, cs, cu := TableOf(blindiKeys, smallPtr, largePtr, keyPtr, area), Spine(s, true, i), Spine(u, false, j);
    AtState(s, u, tab, tab1, diffPos, b, i, j, bits, sp, lp);
    TestsAre(cs, cu, tab, diffPos, endS, curS, endL, curL);
    NextAdjacent(s, u, tab, tab1, diffPos, b, i, j, bits);
    TableIs(blindiKeys, smallPtr, largePtr, keyPtr, area);
    iSmall, iLarge, endSmall, curSmall, endLarge, curLarge := i, j, endS, curS, endL, curL;
    if endLarge || (!endSmall && curSmall < curLarge) {
      tab2 := tab1.(large := tab1.large[cs.slot := TopPtr(cs.large, cu, tab, diffPos, b)]);
      SmallSpineStep(s, u, tab, tab1, tab2, diffPos, b, i, j, bits);
      AtState(s, u, tab, tab2, diffPos, b, i + 1, j, bits, sp, lp);
      iSmall := iSmall + 1;
      endSmall, curSmall, done :=
        LinkSmall(blindiKeys, largePtr, sp[iSmall - 1], sp[iSmall], lp[iLarge], endLarge, curLarge, diffPos, b, area, cs.large, cu, tab, bits);
    } else {
      tab2 := tab1.(small := tab1.small[cu.slot := TopPtr(cs, cu.small, tab, diffPos, b)]);
      LargeSpineStep(s, u, tab, tab1, tab2, diffPos, b, i, j, bits);
      AtState(s, u, tab, tab2, diffPos, b, i, j + 1, bits, sp, lp);
      iLarge := iLarge + 1;
      endLarge, curLarge, done :=
        LinkLarge(blindiKeys, smallPtr, lp[iLarge - 1], lp[iLarge], sp[iSmall], endSmall, curSmall, diffPos, b, area, cs, cu.small, tab, bits);
    }
    TableIs(blindiKeys, smallPtr, largePtr, keyPtr, area);
  }

  /** Weaves the right spine of the one trie and the left spine of the other together.  The paths hold
      the pointers on the spines; slot `b` is that of the new branch. */
  method SpliceSpines(blindiKeys: array<nat>, smallPtr: array<nat>, largePtr: array<nat>, keyPtr: array<Key>, area: nat,
      sp: seq<nat>, lp: seq<nat>, diffPos: nat, b: nat, ghost s: Shape, ghost u: Shape, ghost bits: nat) returns (root: nat)
    requires blindiKeys != smallPtr && blindiKeys != largePtr && smallPtr != largePtr
    requires var tab := TableOf(blindiKeys, smallPtr, largePtr, keyPtr, area);
             && Beside(s, u, tab) && Adjacent(TrieOf(s, tab), TrieOf(u, tab), diffPos, bits)
             && Slots(tab, b) && tab.bits[b] == diffPos && b !in Branches(s) && b !in Branches(u)
    requires sp == PathTo(s, area, Leaves(s) - 1) && lp == PathTo(u, area, 0)
    modifies smallPtr, largePtr
    ensures var tab, tab' := old(TableOf(blindiKeys, smallPtr, largePtr, keyPtr, area)), TableOf(blindiKeys, smallPtr, largePtr, keyPtr, area);
            var v := JoinShape(s, u, tab, diffPos, b);
            Laid(v, tab') && TrieOf(v, tab') == Join(TrieOf(s, tab), TrieOf(u, tab), diffPos) && root == Ptr(v, area)
  {
    hide *;
    ghost var tab := TableOf(blindiKeys, smallPtr, largePtr, keyPtr, area);
    TableIs(blindiKeys, smallPtr, largePtr, keyPtr, area);
    SplicingStarts(s, u, tab, diffPos, b, bits);
    AtState(s, u, tab, tab, diffPos, b, 0, 0, bits, sp, lp);
    SlotBounds(tab, b);
    SpineZero(s, u);
    StartsAt(s, u, tab);
    var iSmall: nat, iLarge: nat := 0, 0;
    var endSmall, endLarge := |sp| == 1, |lp| == 1;
    var curSmall, curLarge := if endSmall then 0 else blindiKeys[sp[0]], if endLarge then 0 else blindiKeys[lp[0]];
    TestsAre(s, u, tab, diffPos, endSmall, curSmall, endLarge, curLarge);
    RootOf(s, u, tab, diffPos, b);
    if (endSmall || diffPos < curSmall) && (endLarge || diffPos < curLarge) {
      root := b;
    } else if endLarge || (!endSmall && curSmall < curLarge) {
      root := sp[0];
    } else {
      root := lp[0];
    }
    ghost var tab1, cs, cu := tab, s, u;
    while !(endSmall || diffPos < curSmall) || !(endLarge || diffPos < curLarge)
      invariant tab1 == TableOf(blindiKeys, smallPtr, largePtr, keyPtr, area) && blindiKeys[..] == tab.bits
      invariant Splicing(s, u, tab, tab1, diffPos, b, iSmall, iLarge, bits) && iSmall < |sp| && iLarge < |lp|
      invariant iSmall <= SpineLength(s, true) && iLarge <= SpineLength(u, false)
      invariant cs == Spine(s, true, iSmall) && cu == Spine(u, false, iLarge) && Laid(cs, tab) && Laid(cu, tab)
      invariant EndIs(cs, tab, endSmall, curSmall)
      invariant EndIs(cu, tab, endLarge, curLarge)
      decreases |sp| + |lp| - iSmall - iLarge
    {
      var done;
      iSmall, iLarge, endSmall, curSmall, endLarge, curLarge, done, tab1 :=
        SpliceStep(blindiKeys, smallPtr, largePtr, keyPtr, area, sp, lp, diffPos, b, iSmall, iLarge, endSmall, curSmall, endLarge, curLarge, s, u, tab, bits);
      cs, cu := Spine(s, true, iSmall), Spine(u, false, iLarge);
      if done {
        break;
      }
    }
    TestsAre(cs, cu, tab, diffPos, endSmall, curSmall, endLarge, curLarge);
    AtState(s, u, tab, tab1, diffPos, b, iSmall, iLarge, bits, sp, lp);
    TableIs(blindiKeys, smallPtr, largePtr, keyPtr, area);
    ghost var tab3 := tab1.(small := tab1.small[b := sp[iSmall]], large := tab1.large[b := lp[iLarge]]);
    Finish(s, u, tab, tab1, tab3, diffPos, b, iSmall, iLarge, bits);
    smallPtr[b] := sp[iSmall];
    largePtr[b] := lp[iLarge];
    TableIs(blindiKeys, smallPtr, largePtr, keyPtr, area);
  }

  lemma SpineZero(s: Shape, u: Shape)
    ensures Spine(s, true, 0) == s && Spine(u, false, 0) == u
    ensures s.KeyAt? <==> SpineLength(s, true) == 0
    ensures u.KeyAt? <==> SpineLength(u, false) == 0
  {
  }

  lemma SlotBounds(tab: Table, b: nat)
    requires Slots(tab, b)
    ensures b < |tab.bits| && b < |tab.small| && b < |tab.large|
  {
  }

  lemma StartsAt(s: Shape, u: Shape, tab: Table)
    requires Laid(s, tab) && Laid(u, tab)
    ensures s.KeyAt? ==> EndIs(s, tab, true, 0)
    ensures u.KeyAt? ==> EndIs(u, tab, true, 0)
    ensures s.Branch? ==> s.slot < |tab.bits| && EndIs(s, tab, false, tab.bits[s.slot])
    ensures u.Branch? ==> u.slot < |tab.bits| && EndIs(u, tab, false, tab.bits[u.slot])
  {
  }

  lemma RootOf(s: Shape, u: Shape, tab: Table, d: nat, b: nat)
    requires Laid(s, tab) && Laid(u, tab)
    ensures Ptr(JoinShape(s, u, tab, d, b), tab.area) == if BNext(s, u, tab, d) then b else if SNext(s, u, tab) then Ptr(s, tab.area) else Ptr(u, tab.area)
  {
  }

  /** The slot of the new branch gets the two spine ends. */
  lemma Finish(s: Shape, u: Shape, tab: Table, tab1: Table, tab2: Table, d: nat, b: nat, i: nat, j: nat, bits: nat)
    requires Beside(s, u, tab) && Splicing(s, u, tab, tab1, d, b, i, j, bits)
    requires Slots(tab, b) && tab.bits[b] == d && b !in Branches(s) && b !in Branches(u)
    requires b < |tab1.small| && b < |tab1.large|
    requires var cs, cu := Spine(s, true, i), Spine(u, false, j);
             BNext(cs, cu, tab, d) && tab2 == tab1.(small := tab1.small[b := Ptr(cs, tab.area)], large := tab1.large[b := Ptr(cu, tab.area)])
    ensures var v := JoinShape(s, u, tab, d, b); Laid(v, tab2) && TrieOf(v, tab2) == Join(TrieOf(s, tab), TrieOf(u, tab), d)
  {
    var cs, cu := Spine(s, true, i), Spine(u, false, j);
    SpineKeeps(s, true, i, tab);
    SpineKeeps(u, false, j, tab);
    assert OnlySlot(tab1, tab2, b);
    KeptElsewhere(cs, tab, tab1, tab2, b);
    KeptElsewhere(cu, tab, tab1, tab2, b);
    SplicedOutside(s, u, tab, tab1, tab2, d, b, i, j);
    hide Spliced, Branches, Distinct;
    SpliceDone(s, u, tab, tab2, d, b, i, j);
  }

  /** The slot of the new branch is none of those spliced so far. */
  lemma {:induction false} SplicedOutside(s: Shape, u: Shape, tab: Table, tab1: Table, tab2: Table, d: nat, b: nat, i: nat, j: nat)
    requires Laid(s, tab) && Laid(u, tab) && b !in Branches(s) && b !in Branches(u)
    requires Spliced(s, u, tab, tab1, d, b, i, j) && OnlySlot(tab1, tab2, b)
    ensures Spliced(s, u, tab, tab2, d, b, i, j)
    decreases i + j
  {
    hide *;
    if i + j == 0 {
      SplicedNone(s, u, tab, tab2, d, b);
    } else {
      SplicedUnfold(s, u, tab, tab1, d, b, i, j);
      OutsideDown(s, u, tab, tab1, tab2, d, b, i, j);
      Parts(if SNext(s, u, tab) then s else u);
      if SNext(s, u, tab) {
        SplicedOutside(s.large, u, tab, tab1, tab2, d, b, i - 1, j);
      } else {
        SplicedOutside(s, u.small, tab, tab1, tab2, d, b, i, j - 1);
      }
      SplicedFold(s, u, tab, tab2, d, b, i, j);
    }
  }

  lemma OutsideDown(s: Shape, u: Shape, tab: Table, tab1: Table, tab2: Table, d: nat, b: nat, i: nat, j: nat)
    requires Laid(s, tab) && Laid(u, tab) && b !in Branches(s) && b !in Branches(u) && i + j > 0
    requires Spliced(s, u, tab, tab1, d, b, i, j) && OnlySlot(tab1, tab2, b)
    ensures SNext(s, u, tab) ==> Linked(tab, tab2, s.slot, Ptr(s.small, tab.area), TopPtr(s.large, u, tab, d, b)) && Kept(s.small, tab, tab2)
    ensures !SNext(s, u, tab) ==> Linked(tab, tab2, u.slot, TopPtr(s, u.small, tab, d, b), Ptr(u.large, tab.area)) && Kept(u.large, tab, tab2)
  {
    if SNext(s, u, tab) {
      Parts(s);
      KeptElsewhere(s.small, tab, tab1, tab2, b);
      LinkedElsewhere(tab, tab1, tab2, s.slot, Ptr(s.small, tab.area), TopPtr(s.large, u, tab, d, b), b);
    } else {
      Parts(u);
      KeptElsewhere(u.large, tab, tab1, tab2, b);
      LinkedElsewhere(tab, tab1, tab2, u.slot, TopPtr(s, u.small, tab, d, b), Ptr(u.large, tab.area), b);
    }
  }
}
