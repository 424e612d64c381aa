/** Changing a few pointers of a laid-out trie: hanging a new key in, taking one out, and moving slots. */
module TrieRelink {
  import opened Keys
  import opened Trie
  import opened TrieEdits
  import opened TrieLayout
  import opened TrieWalk

  // ------------------------------------------------------------------------------------
  // Insertion
  // ------------------------------------------------------------------------------------

  /** A new branch in slot `b` and the new key in slot `k`, in place of the part of the query. */
  function InsertShape(s: Shape, tab: Table, q: Key, d: nat, b: nat, k: nat): (u: Shape)
    requires Laid(s, tab) && BitsBelow(s, tab, |q|) && d < |q|
  {
    if WholePart(s, tab, d) then
      if q[d] then Branch(b, s, KeyAt(k)) else Branch(b, KeyAt(k), s)
    else if q[tab.bits[s.slot]] then Branch(s.slot, s.small, InsertShape(s.large, tab, q, d, b, k))
    else Branch(s.slot, InsertShape(s.small, tab, q, d, b, k), s.large)
  }

  lemma {:induction false} InsertSlots(s: Shape, tab: Table, q: Key, d: nat, b: nat, k: nat)
    requires Laid(s, tab) && BitsBelow(s, tab, |q|) && d < |q| && Distinct(s) && b !in Branches(s) && k !in KeySlots(s)
    ensures var u := InsertShape(s, tab, q, d, b, k);
            Branches(u) == Branches(s) + {b} && KeySlots(u) == KeySlots(s) + {k} && Distinct(u) && Leaves(u) == Leaves(s) + 1
  {
    if !WholePart(s, tab, d) {
      InsertSlots(Toward(s, tab, q), tab, q, d, b, k);
    }
  }

  /** The new branch and the new key are in place. */
  predicate NewSlots(tab: Table, q: Key, d: nat, b: nat, k: nat, part: nat)
    requires d < |q|
  {
    && Slots(tab, b) && k < |tab.keys| && tab.keys[k] == q && tab.bits[b] == d
    && (if q[d] then tab.small[b] == part && tab.large[b] == tab.area + k else tab.small[b] == tab.area + k && tab.large[b] == part)
  }

  /** A branch has one pointer changed, towards the query. */
  predicate Redirected(tab: Table, tab': Table, q: Key, i: nat, p: nat)
  {
    && Slots(tab, i) && Slots(tab', i) && tab'.bits[i] == tab.bits[i] < |q|
    && (if q[tab.bits[i]] then tab'.large[i] == p && tab'.small[i] == tab.small[i] else tab'.small[i] == p && tab'.large[i] == tab.large[i])
  }

  /** All of a shape but the slot `but` is the same in both tables. */
  ghost predicate SameBut(s: Shape, tab: Table, tab': Table, but: nat)
    requires Laid(s, tab)
  {
    && tab.area == tab'.area
    && (forall i :: i in Branches(s) && i != but && Slots(tab, i) ==> SameSlot(tab, tab', i))
    && (forall k :: k in KeySlots(s) && k < |tab.keys| ==> k < |tab'.keys| && tab'.keys[k] == tab.keys[k])
  }

  lemma SameButParts(s: Shape, tab: Table, tab': Table, but: nat)
    requires Laid(s, tab) && s.Branch? && SameBut(s, tab, tab', but)
    ensures SameBut(s.small, tab, tab', but) && SameBut(s.large, tab, tab', but)
    ensures s.slot != but ==> SameSlot(tab, tab', s.slot)
  {
    Parts(s);
  }

  lemma SameButElsewhere(s: Shape, tab: Table, tab': Table, but: nat)
    requires Laid(s, tab) && SameBut(s, tab, tab', but) && but !in Branches(s)
    ensures Laid(s, tab') && TrieOf(s, tab') == TrieOf(s, tab)
  {
    hide Laid, TrieOf;
    SameIf(s, tab, tab');
    Frame(s, tab, tab');
  }

  /** The branch above the part, if there is one. */
  lemma {:induction false} AbovePart(s: Shape, tab: Table, q: Key, d: nat)
    requires Laid(s, tab) && BitsBelow(s, tab, |q|) && Distinct(s) && Depth(s, tab, q, d) > 0
    ensures var par, p := WayDown(s, tab, q, d)[Depth(s, tab, q, d) - 1], Ptr(Part(s, tab, q, d), tab.area);
            && par in Branches(s) && Slots(tab, par) && tab.bits[par] < |q|
            && (if q[tab.bits[par]] then tab.large[par] == p && tab.small[par] != p else tab.small[par] == p && tab.large[par] != p)
  {
    PointersDiffer(s, tab);
    var c := Toward(s, tab, q);
    if Depth(c, tab, q, d) > 0 {
      AbovePart(c, tab, q, d);
    }
  }

  /** Filling two free slots and changing one pointer hangs the new key in where insertion puts it. */
  lemma {:induction false} InsertLaid(s: Shape, tab: Table, tab': Table, q: Key, d: nat, b: nat, k: nat, par: nat)
    requires Laid(s, tab) && Distinct(s) && BitsBelow(s, tab, |q|) && d < |q|
    requires NewSlots(tab', q, d, b, k, Ptr(Part(s, tab, q, d), tab.area)) && SameBut(s, tab, tab', par)
    requires if Depth(s, tab, q, d) == 0 then par !in Branches(s)
             else par == WayDown(s, tab, q, d)[Depth(s, tab, q, d) - 1] && Redirected(tab, tab', q, par, b)
    ensures var u := InsertShape(s, tab, q, d, b, k);
            && Laid(u, tab') && TrieOf(u, tab') == Insert(TrieOf(s, tab), q, d)
            && Ptr(u, tab.area) == if Depth(s, tab, q, d) == 0 then b else Ptr(s, tab.area)
  {
    if WholePart(s, tab, d) {
      SameButElsewhere(s, tab, tab', par);
    } else {
      var c := Toward(s, tab, q);
      SameButParts(s, tab, tab', par);
      if Depth(c, tab, q, d) > 0 { AbovePart(c, tab, q, d); }
      InsertLaid(c, tab, tab', q, d, b, k, par);
      SameButElsewhere(if q[tab.bits[s.slot]] then s.small else s.large, tab, tab', par);
      hide SameBut, NewSlots, Distinct, Branches, Part;
    }
  }

  // ------------------------------------------------------------------------------------
  // Removal
  // ------------------------------------------------------------------------------------

  function Other(s: Shape, tab: Table, q: Key): (c: Shape)
    requires Laid(s, tab) && s.Branch? && tab.bits[s.slot] < |q|
    ensures c < s && Laid(c, tab)
  {
    if q[tab.bits[s.slot]] then s.small else s.large
  }

  /** The key that the query leads to and the branch above it are gone. */
  function RemoveShape(s: Shape, tab: Table, q: Key): (u: Shape)
    requires Laid(s, tab) && BitsBelow(s, tab, |q|) && s.Branch?
  {
    var c := Toward(s, tab, q);
    if c.KeyAt? then Other(s, tab, q)
    else if q[tab.bits[s.slot]] then Branch(s.slot, s.small, RemoveShape(c, tab, q))
    else Branch(s.slot, RemoveShape(c, tab, q), s.large)
  }

  /** The branch above the key that the query leads to. */
  function LastBranch(s: Shape, tab: Table, q: Key): (u: Shape)
    requires Laid(s, tab) && BitsBelow(s, tab, |q|) && s.Branch?
    ensures u.Branch? && Laid(u, tab) && BitsBelow(u, tab, |q|) && Toward(u, tab, q).KeyAt?
  {
    var c := Toward(s, tab, q);
    if c.KeyAt? then s else LastBranch(c, tab, q)
  }

  lemma {:induction false} RemoveSlots(s: Shape, tab: Table, q: Key)
    requires Laid(s, tab) && BitsBelow(s, tab, |q|) && s.Branch? && Distinct(s)
    ensures var u, last := RemoveShape(s, tab, q), LastBranch(s, tab, q);
            && Branches(u) == Branches(s) - {last.slot} && KeySlots(u) == KeySlots(s) - {Toward(last, tab, q).slot}
            && last.slot in Branches(s) && Toward(last, tab, q).slot in KeySlots(s)
            && Distinct(u) && Leaves(u) == Leaves(s) - 1
  {
    if Toward(s, tab, q).Branch? {
      RemoveSlots(Toward(s, tab, q), tab, q);
    }
  }

  /** The end of the path of the descent: the parent, the branch and the key that removal works on. */
  lemma {:induction false} RemovePath(s: Shape, tab: Table, q: Key)
    requires Laid(s, tab) && WellFormed(TrieOf(s, tab), |q|) && s.Branch? && Distinct(s)
    ensures BitsBelow(s, tab, |q|) && Descend(TrieOf(s, tab), q) < Leaves(s)
    ensures var p, last := PathTo(s, tab.area, Descend(TrieOf(s, tab), q)), LastBranch(s, tab, q);
            && |p| >= 2 && p[|p| - 2] == last.slot && p[|p| - 1] == Ptr(Toward(last, tab, q), tab.area)
            && (|p| == 2 <==> last == s) && (|p| == 2 <==> last.slot == s.slot)
            && (|p| > 2 ==>
                && p[|p| - 3] in Branches(s) && Slots(tab, p[|p| - 3]) && tab.bits[p[|p| - 3]] < |q|
                && if q[tab.bits[p[|p| - 3]]] then tab.large[p[|p| - 3]] == last.slot && tab.small[p[|p| - 3]] != last.slot
                   else tab.small[p[|p| - 3]] == last.slot)
  {
    var i, c := Descend(TrieOf(s, tab), q), Toward(s, tab, q);
    WellFormedBits(s, tab, |q|);
    TowardTrie(s, tab, q);
    LeavesAreKeys(s, tab);
    PathStep(s, tab.area, i);
    PointersDiffer(s, tab);
    Parts(s);
    if c.Branch? {
      RemovePath(c, tab, q);
      RemoveSlots(c, tab, q);
      hide WellFormed, Branches, KeySlots, PathTo, TrieOf;
    }
  }

  /** The branch above the key has the key on the side of the query, and only there. */
  lemma {:induction false} LastPointers(s: Shape, tab: Table, q: Key)
    requires Laid(s, tab) && BitsBelow(s, tab, |q|) && s.Branch? && Distinct(s)
    ensures var last := LastBranch(s, tab, q);
            var x, k, o := last.slot, Ptr(Toward(last, tab, q), tab.area), Ptr(Other(last, tab, q), tab.area);
            && Slots(tab, x) && tab.bits[x] < |q| && x in Branches(s) && k >= tab.area
            && if q[tab.bits[x]] then tab.large[x] == k && tab.small[x] == o && o != k else tab.small[x] == k && tab.large[x] == o
  {
    var c := Toward(s, tab, q);
    Parts(s);
    if c.KeyAt? { PointersDiffer(s, tab); } else { LastPointers(c, tab, q); }
  }

  /** One pointer past the branch takes the branch and its key out. */
  lemma {:induction false} RemoveLaid(s: Shape, tab: Table, tab': Table, q: Key, par: nat)
    requires Laid(s, tab) && Distinct(s) && WellFormed(TrieOf(s, tab), |q|) && s.Branch? && SameBut(s, tab, tab', par)
    requires BitsBelow(s, tab, |q|) && Descend(TrieOf(s, tab), q) < Leaves(s)
    requires var p := PathTo(s, tab.area, Descend(TrieOf(s, tab), q));
             var last := LastBranch(s, tab, q);
             if |p| <= 2 then par !in Branches(s) || par == s.slot
             else par == p[|p| - 3] && Redirected(tab, tab', q, par, Ptr(Other(last, tab, q), tab.area))
    ensures var u := RemoveShape(s, tab, q);
            && Laid(u, tab') && TrieOf(s, tab).Node? && Descend(TrieOf(s, tab), q) < Size(TrieOf(s, tab))
            && TrieOf(u, tab') == Remove(TrieOf(s, tab), Descend(TrieOf(s, tab), q))
    ensures var last := LastBranch(s, tab, q);
            Ptr(RemoveShape(s, tab, q), tab.area) == if last.slot == s.slot then Ptr(Other(last, tab, q), tab.area) else Ptr(s, tab.area)
  {
    var c := Toward(s, tab, q);
    TowardTrie(s, tab, q);
    PathStep(s, tab.area, Descend(TrieOf(s, tab), q));
    SameButParts(s, tab, tab', par);
    RemovePath(s, tab, q);
    if c.KeyAt? {
      SameButElsewhere(Other(s, tab, q), tab, tab', par);
    } else {
      RemovePath(c, tab, q);
      RemoveLaid(c, tab, tab', q, par);
      SameButElsewhere(Other(s, tab, q), tab, tab', par);
      hide PathTo, Distinct, Branches, WellFormed, BitsBelow, SameBut;
      RemoveBelow(s, tab, tab', q);
    }
  }

  lemma RemoveBelow(s: Shape, tab: Table, tab': Table, q: Key)
    requires Laid(s, tab) && WellFormed(TrieOf(s, tab), |q|) && s.Branch? && BitsBelow(s, tab, |q|) && Toward(s, tab, q).Branch?
    requires Slots(tab', s.slot) && tab'.area == tab.area && tab'.bits[s.slot] == tab.bits[s.slot]
    requires BitsBelow(Toward(s, tab, q), tab, |q|)
    requires var u := RemoveShape(Toward(s, tab, q), tab, q);
             && Laid(u, tab') && TrieOf(Toward(s, tab, q), tab).Node?
             && Descend(TrieOf(Toward(s, tab, q), tab), q) < Size(TrieOf(Toward(s, tab, q), tab))
             && TrieOf(u, tab') == Remove(TrieOf(Toward(s, tab, q), tab), Descend(TrieOf(Toward(s, tab, q), tab), q))
             && Ptr(u, tab.area) == (if q[tab.bits[s.slot]] then tab'.large[s.slot] else tab'.small[s.slot])
    requires var o := Other(s, tab, q);
             && Laid(o, tab') && TrieOf(o, tab') == TrieOf(o, tab)
             && Ptr(o, tab.area) == if q[tab.bits[s.slot]] then tab'.small[s.slot] else tab'.large[s.slot]
    ensures var u := RemoveShape(s, tab, q);
            && Laid(u, tab') && TrieOf(s, tab).Node? && Descend(TrieOf(s, tab), q) < Size(TrieOf(s, tab))
            && TrieOf(u, tab') == Remove(TrieOf(s, tab), Descend(TrieOf(s, tab), q))
            && Ptr(u, tab.area) == s.slot
  {
    TowardTrie(s, tab, q);
  }

  // ------------------------------------------------------------------------------------
  // The writes of an insertion
  // ------------------------------------------------------------------------------------

  /** The table after the writes of an insertion: the new slots filled and, unless the part is the whole
      trie, one pointer of the branch above it changed. */
  predicate InsertWrites(tab: Table, tab': Table, q: Key, d: nat, b: nat, k: nat, part: nat, par: nat, below: bool)
    requires d < |q|
  {
    && tab'.area == tab.area && b < tab.area && b < |tab.bits| == |tab.small| == |tab.large| && k < |tab.keys|
    && par < tab.area && par < |tab.bits|
    && tab'.bits == tab.bits[b := d] && tab'.keys == tab.keys[k := q]
    && var toLarge := tab.bits[par] < |q| && q[tab.bits[par]];
    && tab'.small == (if below && !toLarge then tab.small[par := b] else tab.small)[b := if q[d] then part else tab.area + k]
    && tab'.large == (if below && toLarge then tab.large[par := b] else tab.large)[b := if q[d] then tab.area + k else part]
  }

  lemma InsertEffect(s: Shape, tab: Table, tab': Table, q: Key, d: nat, b: nat, k: nat, part: nat, par: nat, below: bool)
    requires Laid(s, tab) && d < |q| && b !in Branches(s) && k !in KeySlots(s)
    requires InsertWrites(tab, tab', q, d, b, k, part, par, below)
    requires if below then par in Branches(s) && tab.bits[par] < |q| else par !in Branches(s)
    ensures NewSlots(tab', q, d, b, k, part) && SameBut(s, tab, tab', par)
    ensures below ==> Redirected(tab, tab', q, par, b)
  {
    hide Laid, Branches, KeySlots;
  }

  // ------------------------------------------------------------------------------------
  // Moving slots
  // ------------------------------------------------------------------------------------

  function Moved(p: nat, from: nat, end: nat): nat
  {
    if p == from then end else p
  }

  /** A key slot and a branch slot moved to other places. */
  function RenameShape(s: Shape, ka: nat, kb: nat, ba: nat, bb: nat): (u: Shape)
  {
    match s
    case KeyAt(k) => KeyAt(Moved(k, ka, kb))
    case Branch(i, l, r) => Branch(Moved(i, ba, bb), RenameShape(l, ka, kb, ba, bb), RenameShape(r, ka, kb, ba, bb))
  }

  function MovedPtr(p: nat, area: nat, ka: nat, kb: nat, ba: nat, bb: nat): nat
  {
    if p < area then Moved(p, ba, bb) else Moved(p, area + ka, area + kb)
  }

  /** A slot has moved with its content, and its pointers follow the moves. */
  ghost predicate MovedSlot(tab: Table, tab': Table, i: nat, ka: nat, kb: nat, ba: nat, bb: nat)
    requires Slots(tab, i)
  {
    var j := Moved(i, ba, bb);
    && Slots(tab', j) && tab'.bits[j] == tab.bits[i]
    && tab'.small[j] == MovedPtr(tab.small[i], tab.area, ka, kb, ba, bb)
    && tab'.large[j] == MovedPtr(tab.large[i], tab.area, ka, kb, ba, bb)
  }

  ghost predicate MovedKey(tab: Table, tab': Table, k: nat, ka: nat, kb: nat)
    requires k < |tab.keys|
  {
    Moved(k, ka, kb) < |tab'.keys| && tab'.keys[Moved(k, ka, kb)] == tab.keys[k]
  }

  lemma {:induction false} RenameLaid(s: Shape, tab: Table, tab': Table, ka: nat, kb: nat, ba: nat, bb: nat)
    requires Laid(s, tab) && tab.area == tab'.area
    requires forall i :: i in Branches(s) && Slots(tab, i) ==> MovedSlot(tab, tab', i, ka, kb, ba, bb)
    requires forall k :: k in KeySlots(s) && k < |tab.keys| ==> MovedKey(tab, tab', k, ka, kb)
    ensures var u := RenameShape(s, ka, kb, ba, bb);
            && Laid(u, tab') && TrieOf(u, tab') == TrieOf(s, tab) && Ptr(u, tab.area) == MovedPtr(Ptr(s, tab.area), tab.area, ka, kb, ba, bb)
  {
    if s.Branch? {
      Parts(s);
      RenameLaid(s.small, tab, tab', ka, kb, ba, bb);
      RenameLaid(s.large, tab, tab', ka, kb, ba, bb);
    } else {
      assert s.slot in KeySlots(s);
    }
  }

  function MovedSet(slots: set<nat>, from: nat, end: nat): (r: set<nat>)
  {
    if from in slots then slots - {from} + {end} else slots
  }

  lemma {:induction false} RenameSlots(s: Shape, ka: nat, kb: nat, ba: nat, bb: nat)
    requires Distinct(s) && (ba == bb || bb !in Branches(s)) && (ka == kb || kb !in KeySlots(s))
    ensures var u := RenameShape(s, ka, kb, ba, bb);
            Branches(u) == MovedSet(Branches(s), ba, bb) && KeySlots(u) == MovedSet(KeySlots(s), ka, kb) && Distinct(u) && Leaves(u) == Leaves(s)
  {
    if s.Branch? {
      RenameSlots(s.small, ka, kb, ba, bb);
      RenameSlots(s.large, ka, kb, ba, bb);
      hide RenameShape;
      RenameUnfolds(s, ka, kb, ba, bb);
    }
  }

  lemma RenameUnfolds(s: Shape, ka: nat, kb: nat, ba: nat, bb: nat)
    requires s.Branch?
    ensures RenameShape(s, ka, kb, ba, bb) == Branch(Moved(s.slot, ba, bb), RenameShape(s.small, ka, kb, ba, bb), RenameShape(s.large, ka, kb, ba, bb))
  {
  }

  /** A pointer occurs at most once in the slots below `m`, the slot `skip` aside. */
  predicate Once(small: seq<nat>, large: seq<nat>, m: nat, skip: nat, p: nat)
    requires m <= |small| && m <= |large|
  {
    forall i, j :: 0 <= i <= j < m && i != skip && j != skip && (small[i] == p || large[i] == p) && (small[j] == p || large[j] == p) ==>
      i == j && (small[i] == p) != (large[i] == p)
  }

  lemma OnceInTrie(s: Shape, tab: Table, n: nat, b: nat, p: nat)
    requires Laid(s, tab) && Distinct(s) && n <= |tab.small| && n <= |tab.large|
    requires forall i: nat :: i in Branches(s) <==> i < n && i != b
    ensures Once(tab.small, tab.large, n, b, p)
  {
    LaidSlots(s, tab);
    forall i, j | 0 <= i <= j < n && i != b && j != b && (tab.small[i] == p || tab.large[i] == p) && (tab.small[j] == p || tab.large[j] == p)
      ensures i == j && (tab.small[i] == p) != (tab.large[i] == p)
    {
      assert i in Branches(s) && j in Branches(s);
      hide Laid, Distinct, Branches;
      OneReference(s, tab, i, j, p);
    }
  }

  /** Copying the last slot to the skipped one leaves each pointer in one place. */
  lemma OnceCopied(small: seq<nat>, large: seq<nat>, n: nat, b: nat, p: nat)
    requires 0 < n <= |small| && n <= |large| && b < n && Once(small, large, n, b, p)
    ensures Once(small[b := small[n - 1]], large[b := large[n - 1]], n - 1, n - 1, p)
  {
  }

  /** Redirecting another pointer does not change where a pointer occurs. */
  lemma OnceKept(small: seq<nat>, large: seq<nat>, small': seq<nat>, large': seq<nat>, m: nat, p: nat, from: nat, end: nat)
    requires m <= |small| == |small'| && m <= |large| == |large'| && Once(small, large, m, m, p) && p != from && p != end
    requires forall j :: 0 <= j < m ==> small'[j] == Moved(small[j], from, end) && large'[j] == Moved(large[j], from, end)
    ensures Once(small', large', m, m, p)
  {
  }
}
