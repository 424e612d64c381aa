/** Splicing two tries that lie in one table: the right spine of the one and the left spine of the other
are woven together above the branch that separates them. */
module TrieSplice {
  import opened Keys
  import opened Trie
  import opened TrieEdits
  import opened TrieLayout
  import opened TrieWalk
  import opened TrieRelink

  // ------------------------------------------------------------------------------------
  // Moving a whole trie up
  // ------------------------------------------------------------------------------------

  function ShiftShape(s: Shape, n: nat): (u: Shape)
  {
    match s
    case KeyAt(k) => KeyAt(k + n)
    case Branch(i, l, r) => Branch(i + n, ShiftShape(l, n), ShiftShape(r, n))
  }

  ghost predicate ShiftedSlot(tab: Table, tab': Table, i: nat, n: nat)
    requires Slots(tab, i)
  {
    && Slots(tab', i + n) && tab'.bits[i + n] == tab.bits[i]
    && tab'.small[i + n] == tab.small[i] + n && tab'.large[i + n] == tab.large[i] + n
  }

  ghost predicate ShiftedKey(tab: Table, tab': Table, k: nat, n: nat)
    requires k < |tab.keys|
  {
    k + n < |tab'.keys| && tab'.keys[k + n] == tab.keys[k]
  }

  lemma {:induction false} ShiftLaid(s: Shape, tab: Table, tab': Table, n: nat)
    requires Laid(s, tab) && tab'.area == tab.area
    requires forall i :: i in Branches(s) && Slots(tab, i) ==> ShiftedSlot(tab, tab', i, n)
    requires forall k :: k in KeySlots(s) && k < |tab.keys| ==> ShiftedKey(tab, tab', k, n)
    ensures var u := ShiftShape(s, n); Laid(u, tab') && TrieOf(u, tab') == TrieOf(s, tab) && Ptr(u, tab.area) == Ptr(s, tab.area) + n
  {
    if s.Branch? {
      Parts(s);
      ShiftLaid(s.small, tab, tab', n);
      ShiftLaid(s.large, tab, tab', n);
    } else {
      assert s.slot in KeySlots(s);
    }
  }

  lemma {:induction false} ShiftSlots(s: Shape, n: nat)
    ensures var u := ShiftShape(s, n);
            && Leaves(u) == Leaves(s) && (Distinct(s) ==> Distinct(u))
            && (forall i: nat :: i in Branches(u) <==> i >= n && i - n in Branches(s))
            && (forall k: nat :: k in KeySlots(u) <==> k >= n && k - n in KeySlots(s))
  {
    if s.Branch? {
      ShiftSlots(s.small, n);
      ShiftSlots(s.large, n);
    }
  }

  // ------------------------------------------------------------------------------------
  // Spines
  // ------------------------------------------------------------------------------------

  /** How many steps a spine has, on the large or the small side. */
  function SpineLength(s: Shape, large: bool): (n: nat)
  {
    if s.KeyAt? then 0 else 1 + SpineLength(if large then s.large else s.small, large)
  }

  function Spine(s: Shape, large: bool, i: nat): (c: Shape)
    requires i <= SpineLength(s, large)
    ensures i < SpineLength(s, large) <==> c.Branch?
  {
    if i == 0 then s else Spine(if large then s.large else s.small, large, i - 1)
  }

  lemma {:induction false} SpineStep(s: Shape, large: bool, i: nat)
    requires i < SpineLength(s, large)
    ensures Spine(s, large, i + 1) == if large then Spine(s, large, i).large else Spine(s, large, i).small
  {
    if i > 0 { SpineStep(if large then s.large else s.small, large, i - 1); }
  }

  /** The path to the first or the last key is the spine. */
  lemma {:induction false} SpineIsPath(s: Shape, large: bool, area: nat, i: nat)
    requires i <= SpineLength(s, large)
    ensures var p := PathTo(s, area, if large then Leaves(s) - 1 else 0); |p| == SpineLength(s, large) + 1 && p[i] == Ptr(Spine(s, large, i), area)
  {
    if s.Branch? {
      var c, k := if large then s.large else s.small, if large then Leaves(s) - 1 else 0;
      PathStep(s, area, k);
      assert Child(s, k) == c && ChildIndex(s, k) == if large then Leaves(c) - 1 else 0;
      SpineIsPath(c, large, area, if i == 0 then 0 else i - 1);
    }
  }

  lemma {:induction false} SpineKeeps(s: Shape, large: bool, i: nat, tab: Table)
    requires i <= SpineLength(s, large) && Laid(s, tab) && Distinct(s)
    ensures Laid(Spine(s, large, i), tab) && Distinct(Spine(s, large, i)) && Branches(Spine(s, large, i)) <= Branches(s)
    ensures i > 0 && s.Branch? ==> s.slot !in Branches(Spine(s, large, i)) && Branches(Spine(s, large, i)) !! Branches(if large then s.small else s.large)
  {
    if i > 0 {
      Parts(s);
      SpineKeeps(if large then s.large else s.small, large, i - 1, tab);
    }
  }

  // ------------------------------------------------------------------------------------
  // The spliced trie
  // ------------------------------------------------------------------------------------

  predicate BNext(s: Shape, u: Shape, tab: Table, d: nat)
    requires Laid(s, tab) && Laid(u, tab)
  {
    (s.KeyAt? || d < tab.bits[s.slot]) && (u.KeyAt? || d < tab.bits[u.slot])
  }

  predicate SNext(s: Shape, u: Shape, tab: Table)
    requires Laid(s, tab) && Laid(u, tab)
  {
    u.KeyAt? || (s.Branch? && tab.bits[s.slot] < tab.bits[u.slot])
  }

  function JoinShape(s: Shape, u: Shape, tab: Table, d: nat, b: nat): (v: Shape)
    requires Laid(s, tab) && Laid(u, tab)
    decreases Leaves(s) + Leaves(u)
  {
    if BNext(s, u, tab, d) then Branch(b, s, u)
    else if SNext(s, u, tab) then Branch(s.slot, s.small, JoinShape(s.large, u, tab, d, b))
    else Branch(u.slot, JoinShape(s, u.small, tab, d, b), u.large)
  }

  function TopPtr(s: Shape, u: Shape, tab: Table, d: nat, b: nat): (p: nat)
    requires Laid(s, tab) && Laid(u, tab)
    ensures p == Ptr(JoinShape(s, u, tab, d, b), tab.area)
  {
    if BNext(s, u, tab, d) then b else if SNext(s, u, tab) then Ptr(s, tab.area) else Ptr(u, tab.area)
  }

  lemma {:induction false} JoinSets(s: Shape, u: Shape, tab: Table, d: nat, b: nat)
    requires Laid(s, tab) && Laid(u, tab)
    ensures var v := JoinShape(s, u, tab, d, b);
            && Branches(v) == Branches(s) + Branches(u) + {b} && KeySlots(v) == KeySlots(s) + KeySlots(u) && Leaves(v) == Leaves(s) + Leaves(u)
    decreases Leaves(s) + Leaves(u)
  {
    if BNext(s, u, tab, d) {
    } else if SNext(s, u, tab) {
      JoinSets(s.large, u, tab, d, b);
    } else {
      JoinSets(s, u.small, tab, d, b);
    }
  }

  lemma {:induction false} JoinSlots(s: Shape, u: Shape, tab: Table, d: nat, b: nat)
    requires Laid(s, tab) && Laid(u, tab) && Distinct(s) && Distinct(u) && Branches(s) !! Branches(u) && KeySlots(s) !! KeySlots(u)
    requires b !in Branches(s) && b !in Branches(u)
    ensures var v := JoinShape(s, u, tab, d, b);
            && Branches(v) == Branches(s) + Branches(u) + {b} && KeySlots(v) == KeySlots(s) + KeySlots(u)
            && Distinct(v) && Leaves(v) == Leaves(s) + Leaves(u)
    decreases Leaves(s) + Leaves(u)
  {
    JoinSets(s, u, tab, d, b);
    if BNext(s, u, tab, d) {
    } else if SNext(s, u, tab) {
      JoinSlots(s.large, u, tab, d, b);
      hide Laid, BNext, SNext, TopPtr;
    } else {
      JoinSlots(s, u.small, tab, d, b);
      hide Laid, BNext, SNext, TopPtr;
    }
  }

  /** A branch with its pointers in the new table, and the bit it had. */
  ghost predicate Linked(tab: Table, tab': Table, i: nat, small: nat, large: nat)
  {
    Slots(tab, i) && Slots(tab', i) && tab'.bits[i] == tab.bits[i] && tab'.small[i] == small && tab'.large[i] == large
  }

  ghost predicate Kept(s: Shape, tab: Table, tab': Table)
    requires Laid(s, tab)
  {
    tab'.area == tab.area && Laid(s, tab') && TrieOf(s, tab') == TrieOf(s, tab)
  }

  /** The spines are woven together in the new table as far as `i` steps of the one and `j` of the other. */
  ghost predicate Spliced(s: Shape, u: Shape, tab: Table, tab': Table, d: nat, b: nat, i: nat, j: nat)
    requires Laid(s, tab) && Laid(u, tab)
    decreases i + j
  {
    if i == 0 && j == 0 then true
    else
      && !BNext(s, u, tab, d)
      && if SNext(s, u, tab) then
           && i > 0 && Linked(tab, tab', s.slot, Ptr(s.small, tab.area), TopPtr(s.large, u, tab, d, b)) && Kept(s.small, tab, tab')
           && Spliced(s.large, u, tab, tab', d, b, i - 1, j)
         else
           && j > 0 && Linked(tab, tab', u.slot, TopPtr(s, u.small, tab, d, b), Ptr(u.large, tab.area)) && Kept(u.large, tab, tab')
           && Spliced(s, u.small, tab, tab', d, b, i, j - 1)
  }

  /** One unfolding of the splice, in one direction and the other. */
  lemma SplicedUnfold(s: Shape, u: Shape, tab: Table, tab': Table, d: nat, b: nat, i: nat, j: nat)
    requires Laid(s, tab) && Laid(u, tab) && Spliced(s, u, tab, tab', d, b, i, j) && i + j > 0
    ensures !BNext(s, u, tab, d)
    ensures SNext(s, u, tab) ==>
              && i > 0 && s.Branch? && Laid(s.large, tab) && Laid(s.small, tab)
              && Linked(tab, tab', s.slot, Ptr(s.small, tab.area), TopPtr(s.large, u, tab, d, b)) && Kept(s.small, tab, tab')
              && Spliced(s.large, u, tab, tab', d, b, i - 1, j)
    ensures !SNext(s, u, tab) ==>
              && j > 0 && u.Branch? && Laid(u.small, tab) && Laid(u.large, tab)
              && Linked(tab, tab', u.slot, TopPtr(s, u.small, tab, d, b), Ptr(u.large, tab.area)) && Kept(u.large, tab, tab')
              && Spliced(s, u.small, tab, tab', d, b, i, j - 1)
  {
    hide Linked, Kept, TopPtr, JoinShape;
  }

  lemma SplicedFold(s: Shape, u: Shape, tab: Table, tab': Table, d: nat, b: nat, i: nat, j: nat)
    requires Laid(s, tab) && Laid(u, tab) && i + j > 0 && !BNext(s, u, tab, d)
    requires SNext(s, u, tab) ==>
              && i > 0 && s.Branch? && Laid(s.large, tab) && Laid(s.small, tab)
              && Linked(tab, tab', s.slot, Ptr(s.small, tab.area), TopPtr(s.large, u, tab, d, b)) && Kept(s.small, tab, tab')
              && Spliced(s.large, u, tab, tab', d, b, i - 1, j)
    requires !SNext(s, u, tab) ==>
              && j > 0 && u.Branch? && Laid(u.small, tab) && Laid(u.large, tab)
              && Linked(tab, tab', u.slot, TopPtr(s, u.small, tab, d, b), Ptr(u.large, tab.area)) && Kept(u.large, tab, tab')
              && Spliced(s, u.small, tab, tab', d, b, i, j - 1)
    ensures Spliced(s, u, tab, tab', d, b, i, j)
  {
    hide Linked, Kept, TopPtr, JoinShape;
  }

  lemma {:induction false} SplicedInside(s: Shape, u: Shape, tab: Table, tab': Table, d: nat, b: nat, i: nat, j: nat)
    requires Laid(s, tab) && Laid(u, tab) && Spliced(s, u, tab, tab', d, b, i, j)
    ensures i <= SpineLength(s, true) && j <= SpineLength(u, false)
    decreases i + j
  {
    if i + j > 0 {
      if SNext(s, u, tab) {
        SplicedInside(s.large, u, tab, tab', d, b, i - 1, j);
      } else {
        SplicedInside(s, u.small, tab, tab', d, b, i, j - 1);
      }
    }
  }

  /** When the boundary is next, the new branch completes the splice. */
  lemma {:induction false} SpliceDone(s: Shape, u: Shape, tab: Table, tab': Table, d: nat, b: nat, i: nat, j: nat)
    requires Laid(s, tab) && Laid(u, tab) && Distinct(s) && Distinct(u) && tab'.area == tab.area
    requires Spliced(s, u, tab, tab', d, b, i, j) && i <= SpineLength(s, true) && j <= SpineLength(u, false)
    requires var cs, cu := Spine(s, true, i), Spine(u, false, j);
             && Laid(cs, tab) && Laid(cu, tab) && BNext(cs, cu, tab, d) && Kept(cs, tab, tab') && Kept(cu, tab, tab')
             && Slots(tab', b) && tab'.bits[b] == d && tab'.small[b] == Ptr(cs, tab.area) && tab'.large[b] == Ptr(cu, tab.area)
    ensures var v := JoinShape(s, u, tab, d, b);
            Laid(v, tab') && TrieOf(v, tab') == Join(TrieOf(s, tab), TrieOf(u, tab), d)
    decreases i + j
  {
    if i + j > 0 {
      if SNext(s, u, tab) {
        SpliceDone(s.large, u, tab, tab', d, b, i - 1, j);
      } else {
        SpliceDone(s, u.small, tab, tab', d, b, i, j - 1);
      }
      hide Spine, SpineLength, Distinct;
      JoinTop(s, u, tab, tab', d, b);
    }
  }

  lemma JoinTop(s: Shape, u: Shape, tab: Table, tab': Table, d: nat, b: nat)
    requires Laid(s, tab) && Laid(u, tab) && !BNext(s, u, tab, d) && tab'.area == tab.area
    requires SNext(s, u, tab) ==>
               && Linked(tab, tab', s.slot, Ptr(s.small, tab.area), TopPtr(s.large, u, tab, d, b)) && Kept(s.small, tab, tab')
               && Laid(JoinShape(s.large, u, tab, d, b), tab')
               && TrieOf(JoinShape(s.large, u, tab, d, b), tab') == Join(TrieOf(s.large, tab), TrieOf(u, tab), d)
    requires !SNext(s, u, tab) ==>
               && Linked(tab, tab', u.slot, TopPtr(s, u.small, tab, d, b), Ptr(u.large, tab.area)) && Kept(u.large, tab, tab')
               && Laid(JoinShape(s, u.small, tab, d, b), tab')
               && TrieOf(JoinShape(s, u.small, tab, d, b), tab') == Join(TrieOf(s, tab), TrieOf(u.small, tab), d)
    ensures var v := JoinShape(s, u, tab, d, b);
            Laid(v, tab') && TrieOf(v, tab') == Join(TrieOf(s, tab), TrieOf(u, tab), d)
  {
  }

  // ------------------------------------------------------------------------------------
  // One step
  // ------------------------------------------------------------------------------------

  /** The two tables differ at most in the slot. */
  ghost predicate OnlySlot(tab: Table, tab': Table, x: nat)
  {
    && tab.area == tab'.area && tab.keys == tab'.keys
    && (forall i: nat :: i != x && Slots(tab, i) ==> SameSlot(tab, tab', i))
  }

  lemma KeptElsewhere(s: Shape, tab: Table, tab1: Table, tab2: Table, x: nat)
    requires Laid(s, tab) && Kept(s, tab, tab1) && OnlySlot(tab1, tab2, x) && x !in Branches(s)
    ensures Kept(s, tab, tab2)
  {
    hide Laid, TrieOf, Branches, KeySlots;
    SameButElsewhere(s, tab1, tab2, x);
  }

  lemma LinkedElsewhere(tab: Table, tab1: Table, tab2: Table, i: nat, small: nat, large: nat, x: nat)
    requires Linked(tab, tab1, i, small, large) && OnlySlot(tab1, tab2, x) && i != x
    ensures Linked(tab, tab2, i, small, large)
  {
  }

  /** A write in the slot of a spine below does not touch what is spliced above. */
  lemma {:induction false} SplicedStep(s: Shape, u: Shape, tab: Table, tab1: Table, tab2: Table, d: nat, b: nat, i: nat, j: nat, x: nat)
    requires Laid(s, tab) && Laid(u, tab) && Distinct(s) && Distinct(u) && Branches(s) !! Branches(u)
    requires Spliced(s, u, tab, tab1, d, b, i, j) && OnlySlot(tab1, tab2, x)
    requires i <= SpineLength(s, true) && j <= SpineLength(u, false) && x in Branches(Spine(s, true, i)) + Branches(Spine(u, false, j))
    ensures Spliced(s, u, tab, tab2, d, b, i, j)
    decreases i + j
  {
    hide *;
    if i + j == 0 {
      SplicedNone(s, u, tab, tab2, d, b);
    } else {
      SplicedUnfold(s, u, tab, tab1, d, b, i, j);
      SpineKeeps(s, true, i, tab);
      SpineKeeps(u, false, j, tab);
      SplicedDown(s, u, tab, tab1, tab2, d, b, i, j, x);
      if SNext(s, u, tab) {
        SpineBelow(s, true, i);
        SplicedStep(s.large, u, tab, tab1, tab2, d, b, i - 1, j, x);
      } else {
        SpineBelow(u, false, j);
        SplicedStep(s, u.small, tab, tab1, tab2, d, b, i, j - 1, x);
      }
      SplicedFold(s, u, tab, tab2, d, b, i, j);
    }
  }

  lemma SplicedNone(s: Shape, u: Shape, tab: Table, tab': Table, d: nat, b: nat)
    requires Laid(s, tab) && Laid(u, tab)
    ensures Spliced(s, u, tab, tab', d, b, 0, 0)
  {
  }

  lemma SpineBelow(s: Shape, large: bool, i: nat)
    requires s.Branch? && Distinct(s) && 0 < i <= SpineLength(s, large)
    ensures var c := if large then s.large else s.small;
            && Distinct(c) && Branches(c) <= Branches(s) && i - 1 <= SpineLength(c, large) && Spine(s, large, i) == Spine(c, large, i - 1)
  {
    Parts(s);
  }

  /** The top of the splice in the new table. */
  lemma SplicedDown(s: Shape, u: Shape, tab: Table, tab1: Table, tab2: Table, d: nat, b: nat, i: nat, j: nat, x: nat)
    requires Laid(s, tab) && Laid(u, tab) && Distinct(s) && Distinct(u) && Branches(s) !! Branches(u) && i + j > 0
    requires Spliced(s, u, tab, tab1, d, b, i, j) && OnlySlot(tab1, tab2, x)
    requires i <= SpineLength(s, true) && j <= SpineLength(u, false) && x in Branches(Spine(s, true, i)) + Branches(Spine(u, false, j))
    requires Branches(Spine(s, true, i)) <= Branches(s) && Branches(Spine(u, false, j)) <= Branches(u)
    requires i > 0 && s.Branch? ==> s.slot !in Branches(Spine(s, true, i)) && Branches(Spine(s, true, i)) !! Branches(s.small)
    requires j > 0 && u.Branch? ==> u.slot !in Branches(Spine(u, false, j)) && Branches(Spine(u, false, j)) !! Branches(u.large)
    ensures SNext(s, u, tab) ==> Linked(tab, tab2, s.slot, Ptr(s.small, tab.area), TopPtr(s.large, u, tab, d, b)) && Kept(s.small, tab, tab2)
    ensures !SNext(s, u, tab) ==> Linked(tab, tab2, u.slot, TopPtr(s, u.small, tab, d, b), Ptr(u.large, tab.area)) && Kept(u.large, tab, tab2)
  {
    if SNext(s, u, tab) {
      Parts(s);
      KeptElsewhere(s.small, tab, tab1, tab2, x);
      LinkedElsewhere(tab, tab1, tab2, s.slot, Ptr(s.small, tab.area), TopPtr(s.large, u, tab, d, b), x);
    } else {
      Parts(u);
      KeptElsewhere(u.large, tab, tab1, tab2, x);
      LinkedElsewhere(tab, tab1, tab2, u.slot, TopPtr(s, u.small, tab, d, b), Ptr(u.large, tab.area), x);
    }
  }

  /** The splice grows by one step at its end. */
  lemma {:induction false} SplicedGrows(s: Shape, u: Shape, tab: Table, tab': Table, d: nat, b: nat, i: nat, j: nat)
    requires Laid(s, tab) && Laid(u, tab) && Distinct(s) && Distinct(u)
    requires Spliced(s, u, tab, tab', d, b, i, j) && i <= SpineLength(s, true) && j <= SpineLength(u, false)
    requires var cs, cu := Spine(s, true, i), Spine(u, false, j);
             && Laid(cs, tab) && Laid(cu, tab) && !BNext(cs, cu, tab, d)
             && if SNext(cs, cu, tab) then
                  Linked(tab, tab', cs.slot, Ptr(cs.small, tab.area), TopPtr(cs.large, cu, tab, d, b)) && Kept(cs.small, tab, tab')
                else
                  Linked(tab, tab', cu.slot, TopPtr(cs, cu.small, tab, d, b), Ptr(cu.large, tab.area)) && Kept(cu.large, tab, tab')
    ensures var small := SNext(Spine(s, true, i), Spine(u, false, j), tab);
            Spliced(s, u, tab, tab', d, b, if small then i + 1 else i, if small then j else j + 1)
    decreases i + j
  {
    hide Linked, Kept, TopPtr, JoinShape;
    if i + j > 0 {
      if SNext(s, u, tab) {
        SplicedGrows(s.large, u, tab, tab', d, b, i - 1, j);
      } else {
        SplicedGrows(s, u.small, tab, tab', d, b, i, j - 1);
      }
    }
  }

  // ------------------------------------------------------------------------------------
  // The loop
  // ------------------------------------------------------------------------------------

  ghost predicate Beside(s: Shape, u: Shape, tab: Table)
  {
    Laid(s, tab) && Laid(u, tab) && Distinct(s) && Distinct(u) && Branches(s) !! Branches(u)
  }

  /** The state of the splicing loop after `i` steps down the one spine and `j` down the other. */
  ghost predicate Splicing(s: Shape, u: Shape, tab: Table, tab': Table, d: nat, b: nat, i: nat, j: nat, bits: nat)
    requires Beside(s, u, tab)
  {
    && i <= SpineLength(s, true) && j <= SpineLength(u, false) && Spliced(s, u, tab, tab', d, b, i, j)
    && var cs, cu := Spine(s, true, i), Spine(u, false, j);
    && Laid(cs, tab) && Laid(cu, tab) && Kept(cs, tab, tab') && Kept(cu, tab, tab') && Adjacent(TrieOf(cs, tab), TrieOf(cu, tab), d, bits)
    && tab'.bits == tab.bits && tab'.keys == tab.keys && tab'.area == tab.area
    && |tab'.small| == |tab.small| && |tab'.large| == |tab.large|
  }

  lemma SplicingStarts(s: Shape, u: Shape, tab: Table, d: nat, b: nat, bits: nat)
    requires Beside(s, u, tab) && Adjacent(TrieOf(s, tab), TrieOf(u, tab), d, bits)
    ensures Splicing(s, u, tab, tab, d, b, 0, 0, bits)
  {
  }

  lemma OneWrite(tab: Table, tab': Table, x: nat, p: nat, large: bool)
    requires x < |tab.small| && x < |tab.large|
    requires tab' == if large then tab.(large := tab.large[x := p]) else tab.(small := tab.small[x := p])
    ensures OnlySlot(tab, tab', x)
  {
  }

  /** A step down the spine of the small trie, with the pointer there set to what comes next. */
  lemma SmallSpineStep(s: Shape, u: Shape, tab: Table, tab1: Table, tab2: Table, d: nat, b: nat, i: nat, j: nat, bits: nat)
    requires Beside(s, u, tab) && Splicing(s, u, tab, tab1, d, b, i, j, bits)
    requires var cs, cu := Spine(s, true, i), Spine(u, false, j);
             && !BNext(cs, cu, tab, d) && SNext(cs, cu, tab) && cs.Branch?
             && tab2 == tab1.(large := tab1.large[cs.slot := TopPtr(cs.large, cu, tab, d, b)])
    ensures Splicing(s, u, tab, tab2, d, b, i + 1, j, bits)
  {
    var cs, cu := Spine(s, true, i), Spine(u, false, j);
    SpineKeeps(s, true, i, tab);
    SpineKeeps(u, false, j, tab);
    SpineStep(s, true, i);
    SmallStep(TrieOf(cs, tab), TrieOf(cu, tab), d, bits);
    OneWrite(tab1, tab2, cs.slot, TopPtr(cs.large, cu, tab, d, b), true);
    Parts(cs);
    SplicedStep(s, u, tab, tab1, tab2, d, b, i, j, cs.slot);
    KeptChildren(cs, tab, tab1);
    KeptElsewhere(cs.small, tab, tab1, tab2, cs.slot);
    KeptElsewhere(cs.large, tab, tab1, tab2, cs.slot);
    KeptElsewhere(cu, tab, tab1, tab2, cs.slot);
    hide Spliced, Distinct, Branches, Adjacent, TopPtr;
    SplicedGrows(s, u, tab, tab2, d, b, i, j);
  }

  lemma LargeSpineStep(s: Shape, u: Shape, tab: Table, tab1: Table, tab2: Table, d: nat, b: nat, i: nat, j: nat, bits: nat)
    requires Beside(s, u, tab) && Splicing(s, u, tab, tab1, d, b, i, j, bits)
    requires var cs, cu := Spine(s, true, i), Spine(u, false, j);
             && !BNext(cs, cu, tab, d) && !SNext(cs, cu, tab) && cu.Branch?
             && tab2 == tab1.(small := tab1.small[cu.slot := TopPtr(cs, cu.small, tab, d, b)])
    ensures Splicing(s, u, tab, tab2, d, b, i, j + 1, bits)
  {
    var cs, cu := Spine(s, true, i), Spine(u, false, j);
    SpineKeeps(s, true, i, tab);
    SpineKeeps(u, false, j, tab);
    SpineStep(u, false, j);
    LargeStep(TrieOf(cs, tab), TrieOf(cu, tab), d, bits);
    OneWrite(tab1, tab2, cu.slot, TopPtr(cs, cu.small, tab, d, b), false);
    Parts(cu);
    SplicedStep(s, u, tab, tab1, tab2, d, b, i, j, cu.slot);
    KeptChildren(cu, tab, tab1);
    KeptElsewhere(cu.small, tab, tab1, tab2, cu.slot);
    KeptElsewhere(cu.large, tab, tab1, tab2, cu.slot);
    KeptElsewhere(cs, tab, tab1, tab2, cu.slot);
    hide Spliced, Distinct, Branches, Adjacent, TopPtr;
    SplicedGrows(s, u, tab, tab2, d, b, i, j);
  }

  lemma KeptChildren(s: Shape, tab: Table, tab': Table)
    requires s.Branch? && Laid(s, tab) && Kept(s, tab, tab')
    ensures Kept(s.small, tab, tab') && Kept(s.large, tab, tab') && Slots(tab', s.slot)
    ensures tab'.small[s.slot] == Ptr(s.small, tab.area) && tab'.large[s.slot] == Ptr(s.large, tab.area) && tab'.bits[s.slot] == tab.bits[s.slot]
  {
  }
}
