/** The loop that copies a laid-out trie into the front slots of another node. */
module TrieCopy {
  import opened Keys
  import opened Trie
  import opened TrieLayout
  import opened TrieMerge
  import opened TrieFill

  ghost function State(tab: Table, newBits: array<nat>, newSmall: array<nat>, newLarge: array<nat>, newKeys: array<Key>, area: nat,
      nu: array<nat>, pos: array<nat>, bc: nat, kc: nat): (f: Fill)
    ensures f.tab == tab
    reads newBits, newSmall, newLarge, newKeys, nu, pos
  {
    Fill(tab, TableOf(newBits, newSmall, newLarge, newKeys, area), nu[..], pos[..], bc, kc)
  }

  lemma StateIs(tab: Table, newBits: array<nat>, newSmall: array<nat>, newLarge: array<nat>, newKeys: array<Key>, area: nat,
      nu: array<nat>, pos: array<nat>, bc: nat, kc: nat)
    ensures State(tab, newBits, newSmall, newLarge, newKeys, area, nu, pos, bc, kc)
            == Fill(tab, Table(newBits[..], newSmall[..], newLarge[..], newKeys[..], area), nu[..], pos[..], bc, kc)
  {
  }

  /** What one turn of the loop sees: the branch on top of the stack, and room for what it places. */
  lemma AtTurn(v: Shape, st: seq<nat>, f: Fill, half: nat)
    requires Laid(v, f.tab) && Distinct(v) && Leaves(v) == half && InProgress(v, 0, 0, st, f) && f.kc < half
    requires half <= |f.out.keys| && half - 1 <= |f.out.bits| && half - 1 <= |f.out.small| && half - 1 <= |f.out.large| && half <= f.out.area
    requires |f.nu| == |f.pos|
    ensures |st| > 0
    ensures var (c, b, k) := Top(v, 0, 0, st, f.nu);
            && c.Branch? && c.slot == st[|st| - 1] && Laid(c, f.tab) && Distinct(c) && Met(c, b, k, f) && AtTop(c, b, k, f)
            && c.slot < |f.nu| && c.slot < |f.pos| && f.pos[c.slot] == b && f.nu[c.slot] <= 2 && b < |f.out.small| && b < |f.out.large|
            && (f.nu[c.slot] == 2 ==> |st| > 1)
            && c.slot < |f.tab.small| && c.slot < |f.tab.large| && f.kc < |f.out.keys|
            && (f.nu[c.slot] < 2 ==>
                  && var x := Next(c, f.nu[c.slot]);
                  && Laid(x, f.tab) && Ptr(x, f.tab.area) == (if f.nu[c.slot] == 0 then f.tab.small[c.slot] else f.tab.large[c.slot])
                  && (x.Branch? <==> Ptr(x, f.tab.area) < f.tab.area)
                  && (x.KeyAt? ==> Ptr(x, f.tab.area) == f.tab.area + x.slot && x.slot < |f.tab.keys|)
                  && (x.Branch? ==> x.slot == Ptr(x, f.tab.area) && x.slot < |f.tab.bits| && x.slot < |f.nu| && x.slot < |f.pos|
                                    && Slots(f.out, f.bc) && f.bc < |f.out.bits|))
  {
    hide *;
    TopIs(v, 0, 0, st, f);
    var (c, b, k) := Top(v, 0, 0, st, f.nu);
    MetSlots(c, b, k, f);
    TopCounts(c, b, k, f);
    if |st| == 1 {
      OnlyTop(v, 0, 0, st, f);
    }
    if f.nu[c.slot] < 2 {
      NextLabel(c, b, k, f);
      Room(v, c, b, f, half);
    }
  }

  lemma MetSlots(c: Shape, b: nat, k: nat, f: Fill)
    requires Laid(c, f.tab) && Met(c, b, k, f)
    ensures c.Branch? && c.slot < |f.nu| && c.slot < |f.pos| && f.pos[c.slot] == b && f.nu[c.slot] <= 2
    ensures b < |f.out.small| && b < |f.out.large| && c.slot < |f.tab.small| && c.slot < |f.tab.large|
  {
    hide Done, Relabel, Fresh;
  }

  lemma OnlyTop(v: Shape, b: nat, k: nat, st: seq<nat>, f: Fill)
    requires |st| == 1
    ensures Top(v, b, k, st, f.nu) == (v, b, k)
  {
  }

  lemma Room(v: Shape, c: Shape, b: nat, f: Fill, half: nat)
    requires c.Branch? && c.slot < |f.nu| && f.nu[c.slot] < 2 && Laid(Next(c, f.nu[c.slot]), f.tab) && Fresh(Next(c, f.nu[c.slot]), f.nu)
    requires f.bc + Leaves(Next(c, f.nu[c.slot])) <= b + Leaves(c) && b + Leaves(c) <= half && |f.nu| == |f.pos|
    requires half - 1 <= |f.out.bits| && half - 1 <= |f.out.small| && half - 1 <= |f.out.large| && half <= f.out.area
    ensures var x := Next(c, f.nu[c.slot]);
            && (x.Branch? <==> Ptr(x, f.tab.area) < f.tab.area)
            && (x.KeyAt? ==> Ptr(x, f.tab.area) == f.tab.area + x.slot && x.slot < |f.tab.keys|)
            && (x.Branch? ==> x.slot == Ptr(x, f.tab.area) && x.slot < |f.tab.bits| && x.slot < |f.nu| && x.slot < |f.pos|
                              && Slots(f.out, f.bc) && f.bc < |f.out.bits|)
  {
    var x := Next(c, f.nu[c.slot]);
    if x.Branch? {
      FreshParts(x, f.nu);
      assert Leaves(x) == Leaves(x.small) + Leaves(x.large);
    }
    hide Leaves, Fresh;
  }

  /** A key met on the way: it gets the next key slot. */
  lemma KeyTurn(v: Shape, st: seq<nat>, f: Fill)
    requires Laid(v, f.tab) && Distinct(v) && InProgress(v, 0, 0, st, f) && |st| > 0
    requires var (c, b, k) := Top(v, 0, 0, st, f.nu);
             && Laid(c, f.tab) && Distinct(c) && Met(c, b, k, f) && AtTop(c, b, k, f) && c.Branch? && c.slot == st[|st| - 1]
             && c.slot < |f.nu| && f.nu[c.slot] < 2 && Next(c, f.nu[c.slot]).KeyAt? && b < |f.out.small| && b < |f.out.large|
             && f.kc < |f.out.keys| && Next(c, f.nu[c.slot]).slot < |f.tab.keys|
    ensures var (c, b, k) := Top(v, 0, 0, st, f.nu); KeyPlaced(c, b, f).tab == f.tab && InProgress(v, 0, 0, st, KeyPlaced(c, b, f))
  {
    hide *;
    var (c, b, k) := Top(v, 0, 0, st, f.nu);
    KeyStepFrame(c, b, k, f);
    KeyStep(c, b, k, f);
    OnTop(v, 0, 0, st, [c.slot], f, KeyPlaced(c, b, f));
    assert st[..|st| - 1] + [c.slot] == st;
  }

  /** A branch met on the way: it gets the next branch slot, and goes on the stack. */
  lemma BranchTurn(v: Shape, st: seq<nat>, f: Fill)
    requires Laid(v, f.tab) && Distinct(v) && InProgress(v, 0, 0, st, f) && |st| > 0
    requires var (c, b, k) := Top(v, 0, 0, st, f.nu);
             && Laid(c, f.tab) && Distinct(c) && Met(c, b, k, f) && AtTop(c, b, k, f) && c.Branch? && c.slot == st[|st| - 1]
             && c.slot < |f.nu| && f.nu[c.slot] < 2 && Next(c, f.nu[c.slot]).Branch? && b < |f.out.small| && b < |f.out.large|
             && Slots(f.out, f.bc) && f.bc < |f.out.bits| && Next(c, f.nu[c.slot]).slot < |f.tab.bits| && Next(c, f.nu[c.slot]).slot < |f.pos|
    ensures var (c, b, k) := Top(v, 0, 0, st, f.nu);
            BranchOpened(c, b, f).tab == f.tab && InProgress(v, 0, 0, st + [Next(c, f.nu[c.slot]).slot], BranchOpened(c, b, f))
  {
    hide *;
    var (c, b, k) := Top(v, 0, 0, st, f.nu);
    var x := Next(c, f.nu[c.slot]).slot;
    BranchStepFrame(c, b, k, f);
    BranchStep(c, b, k, f);
    OnTop(v, 0, 0, st, [c.slot, x], f, BranchOpened(c, b, f));
    assert st[..|st| - 1] + [c.slot, x] == st + [x];
  }

  /** One turn of the walk: the branch on top of the stack is met for the first, the second or the third
      time. */
  method FillStep(smallPtr: array<nat>, largePtr: array<nat>, oldBits: array<nat>, oldKeys: array<Key>,
      newBits: array<nat>, newSmall: array<nat>, newLarge: array<nat>, newKeys: array<Key>, area: nat, half: nat,
      nuInPos: array<nat>, newPos: array<nat>, stack: seq<nat>, bc: nat, kc: nat, ghost v: Shape, ghost tab: Table)
    returns (newStack: seq<nat>, branches: nat, keys: nat)
    requires {newBits, newSmall, newLarge, nuInPos, newPos} !! {smallPtr, largePtr, oldBits} && newKeys != oldKeys
    requires newBits != newSmall && newBits != newLarge && newSmall != newLarge && nuInPos != newPos
    requires {newBits, newSmall, newLarge} !! {nuInPos, newPos}
    requires tab == Table(oldBits[..], smallPtr[..], largePtr[..], oldKeys[..], area)
    requires Laid(v, tab) && Distinct(v) && Leaves(v) == half && kc < half && nuInPos.Length == newPos.Length
    requires half <= newKeys.Length && half - 1 <= newBits.Length && half - 1 <= newSmall.Length && half - 1 <= newLarge.Length && half <= area
    requires InProgress(v, 0, 0, stack, State(tab, newBits, newSmall, newLarge, newKeys, area, nuInPos, newPos, bc, kc))
    modifies newBits, newSmall, newLarge, newKeys, nuInPos, newPos
    ensures InProgress(v, 0, 0, newStack, State(tab, newBits, newSmall, newLarge, newKeys, area, nuInPos, newPos, branches, keys))
    ensures branches + keys == bc + kc + 1 || (branches == bc && keys == kc && |newStack| < |stack|)
  {
    hide *;
    ghost var f := State(tab, newBits, newSmall, newLarge, newKeys, area, nuInPos, newPos, bc, kc);
    StateIs(tab, newBits, newSmall, newLarge, newKeys, area, nuInPos, newPos, bc, kc);
    AtTurn(v, stack, f, half);
    ghost var (c, b, k) := Top(v, 0, 0, stack, f.nu);
    newStack, branches, keys := stack, bc, kc;
    var slot := stack[|stack| - 1];
    if nuInPos[slot] == 2 {
      Popped(v, 0, 0, stack, f);
      newStack := stack[..|stack| - 1];
      return;
    }
    var first := nuInPos[slot] == 0;
    var next := if first then smallPtr[slot] else largePtr[slot];
    nuInPos[slot] := nuInPos[slot] + 1;
    if next >= area {
      KeyTurn(v, stack, f);
      KeyPlacedIs(c, b, f);
      var keyPos := next - area;
      if first {
        newSmall[newPos[slot]] := keys + area;
      } else {
        newLarge[newPos[slot]] := keys + area;
      }
      newKeys[keys] := oldKeys[keyPos];
      keys := keys + 1;
    } else {
      BranchTurn(v, stack, f);
      BranchOpenedIs(c, b, f);
      newStack := stack + [next];
      newBits[branches] := oldBits[next];
      if first {
        newSmall[newPos[slot]] := branches;
      } else {
        newLarge[newPos[slot]] := branches;
      }
      newPos[next] := branches;
      branches := branches + 1;
    }
    StateIs(tab, newBits, newSmall, newLarge, newKeys, area, nuInPos, newPos, branches, keys);
  }

  lemma KeyPlacedIs(c: Shape, b: nat, f: Fill)
    requires c.Branch? && c.slot < |f.nu| && b < |f.out.small| && b < |f.out.large| && Next(c, f.nu[c.slot]).KeyAt? && f.nu[c.slot] < 2
    requires f.kc < |f.out.keys| && Next(c, f.nu[c.slot]).slot < |f.tab.keys|
    ensures var p: nat, m: nat := f.tab.area + f.kc, f.nu[c.slot] + 1;
            KeyPlaced(c, b, f) == Fill(f.tab,
              Table(f.out.bits,
                    if f.nu[c.slot] == 0 then f.out.small[b := p] else f.out.small,
                    if f.nu[c.slot] == 0 then f.out.large else f.out.large[b := p],
                    f.out.keys[f.kc := f.tab.keys[Next(c, f.nu[c.slot]).slot]], f.out.area),
              f.nu[c.slot := m], f.pos, f.bc, f.kc + 1)
  {
  }

  lemma BranchOpenedIs(c: Shape, b: nat, f: Fill)
    requires c.Branch? && c.slot < |f.nu| && b < |f.out.small| && b < |f.out.large| && Next(c, f.nu[c.slot]).Branch? && f.nu[c.slot] < 2
    requires f.bc < |f.out.bits| && Next(c, f.nu[c.slot]).slot < |f.tab.bits| && Next(c, f.nu[c.slot]).slot < |f.pos|
    ensures var x, m: nat := Next(c, f.nu[c.slot]).slot, f.nu[c.slot] + 1;
            BranchOpened(c, b, f) == Fill(f.tab,
              Table(f.out.bits[f.bc := f.tab.bits[x]],
                    if f.nu[c.slot] == 0 then f.out.small[b := f.bc] else f.out.small,
                    if f.nu[c.slot] == 0 then f.out.large else f.out.large[b := f.bc],
                    f.out.keys, f.out.area),
              f.nu[c.slot := m], f.pos[x := f.bc], f.bc + 1, f.kc)
  {
  }

  /** Fills the front slots of a node with a copy of a trie: branches in preorder, keys in order.  The
      pointers come from arrays of their own, so that they can be those of a part of the old node. */
  method FillNodeArray(root: nat, smallPtr: array<nat>, largePtr: array<nat>, oldBits: array<nat>, oldKeys: array<Key>,
      newBits: array<nat>, newSmall: array<nat>, newLarge: array<nat>, newKeys: array<Key>, area: nat, half: nat, ghost v: Shape)
    returns (newRoot: nat)
    requires {newBits, newSmall, newLarge} !! {smallPtr, largePtr, oldBits} && newKeys != oldKeys
    requires newBits != newSmall && newBits != newLarge && newSmall != newLarge && oldBits.Length == smallPtr.Length
    requires Laid(v, TableOf(oldBits, smallPtr, largePtr, oldKeys, area)) && Distinct(v) && Leaves(v) == half >= 2 && root == Ptr(v, area)
    requires half <= newKeys.Length && half - 1 <= newBits.Length && half - 1 <= newSmall.Length && half - 1 <= newLarge.Length && half <= area
    modifies newBits, newSmall, newLarge, newKeys
    ensures newRoot == 0
    ensures var tab, out := TableOf(oldBits, smallPtr, largePtr, oldKeys, area), TableOf(newBits, newSmall, newLarge, newKeys, area);
            Laid(v, tab) && Laid(Relabel(v, 0, 0), out) && TrieOf(Relabel(v, 0, 0), out) == TrieOf(v, tab)
  {
    hide *;
    ghost var tab := TableOf(oldBits, smallPtr, largePtr, oldKeys, area);
    TableIs(oldBits, smallPtr, largePtr, oldKeys, area);
    RootBranch(v, tab);
    var newPos, nuInPos := new nat[oldBits.Length], new nat[oldBits.Length](_ => 0);
    newRoot := 0;
    newBits[0] := oldBits[root];
    newPos[root] := 0;
    var branches: nat, keys: nat, stack: seq<nat> := 1, 0, [root];
    StateIs(tab, newBits, newSmall, newLarge, newKeys, area, nuInPos, newPos, branches, keys);
    Starts(v, State(tab, newBits, newSmall, newLarge, newKeys, area, nuInPos, newPos, branches, keys));
    while keys < half
      invariant tab == Table(oldBits[..], smallPtr[..], largePtr[..], oldKeys[..], area) && fresh(newPos) && fresh(nuInPos)
      invariant InProgress(v, 0, 0, stack, State(tab, newBits, newSmall, newLarge, newKeys, area, nuInPos, newPos, branches, keys))
      invariant branches < half && keys <= half
      decreases 2 * half - branches - keys, |stack|
    {
      stack, branches, keys :=
        FillStep(smallPtr, largePtr, oldBits, oldKeys, newBits, newSmall, newLarge, newKeys, area, half, nuInPos, newPos, stack, branches, keys, v, tab);
      StateIs(tab, newBits, newSmall, newLarge, newKeys, area, nuInPos, newPos, branches, keys);
      Counted(v, 0, 0, stack, State(tab, newBits, newSmall, newLarge, newKeys, area, nuInPos, newPos, branches, keys));
    }
    StateIs(tab, newBits, newSmall, newLarge, newKeys, area, nuInPos, newPos, branches, keys);
    TableIs(newBits, newSmall, newLarge, newKeys, area);
    TableIs(oldBits, smallPtr, largePtr, oldKeys, area);
    ghost var f := State(tab, newBits, newSmall, newLarge, newKeys, area, nuInPos, newPos, branches, keys);
    Completed(v, 0, 0, stack, f);
    DoneIs(v, 0, 0, f);
  }

  lemma RootBranch(v: Shape, tab: Table)
    requires Laid(v, tab) && Leaves(v) >= 2
    ensures v.Branch? && Ptr(v, tab.area) == v.slot < |tab.bits| && v.slot < |tab.small|
  {
  }

  lemma Starts(v: Shape, f: Fill)
    requires Laid(v, f.tab) && v.Branch? && Distinct(v) && |f.nu| == |f.pos| == |f.tab.bits| && (forall x :: 0 <= x < |f.nu| ==> f.nu[x] == 0)
    requires v.slot < |f.pos| && f.pos[v.slot] == 0 && |f.out.bits| > 0 && |f.out.small| > 0 && |f.out.large| > 0 && f.out.area > 0 && f.out.bits[0] == f.tab.bits[v.slot] && f.out.area == f.tab.area
    requires f.bc == 1 && f.kc == 0
    ensures InProgress(v, 0, 0, [v.slot], f)
  {
    LaidSlots(v.small, f.tab);
    LaidSlots(v.large, f.tab);
    hide Laid, Done, Relabel, Branches, Distinct;
  }
}
