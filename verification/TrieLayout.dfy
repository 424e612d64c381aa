/** How a blind trie lies in the arrays of a node: branches and keys are in slots in any order, and
every branch slot points to its two children.  A pointer below `area` is a branch slot, one from
`area` on is a key slot moved up by `area`. */
module TrieLayout {
  import opened Keys
  import opened Trie

  datatype Table = Table(bits: seq<nat>, small: seq<nat>, large: seq<nat>, keys: seq<Key>, area: nat)

  /** Which slots the branches and the keys of a trie are in. */
  datatype Shape = KeyAt(slot: nat) | Branch(slot: nat, small: Shape, large: Shape)

  function Ptr(s: Shape, area: nat): (p: nat)
  {
    match s
    case KeyAt(k) => area + k
    case Branch(i, _, _) => i
  }

  predicate Slots(tab: Table, i: nat)
  {
    i < tab.area && i < |tab.bits| && i < |tab.small| && i < |tab.large|
  }

  /** The arrays hold the trie in the slots of the shape. */
  predicate Laid(s: Shape, tab: Table)
  {
    match s
    case KeyAt(k) => k < |tab.keys|
    case Branch(i, l, r) =>
      Slots(tab, i) && tab.small[i] == Ptr(l, tab.area) && tab.large[i] == Ptr(r, tab.area) && Laid(l, tab) && Laid(r, tab)
  }

  function TrieOf(s: Shape, tab: Table): (t: Trie)
    requires Laid(s, tab)
    ensures t.Leaf? <==> s.KeyAt?
  {
    match s
    case KeyAt(k) => Leaf(tab.keys[k])
    case Branch(i, l, r) => Node(tab.bits[i], TrieOf(l, tab), TrieOf(r, tab))
  }

  function Branches(s: Shape): (r: set<nat>)
  {
    match s
    case KeyAt(_) => {}
    case Branch(i, l, r) => {i} + Branches(l) + Branches(r)
  }

  function KeySlots(s: Shape): (r: set<nat>)
  {
    match s
    case KeyAt(k) => {k}
    case Branch(_, l, r) => KeySlots(l) + KeySlots(r)
  }

  /** No slot is used twice. */
  predicate Distinct(s: Shape)
  {
    match s
    case KeyAt(_) => true
    case Branch(i, l, r) =>
      && i !in Branches(l) && i !in Branches(r) && Branches(l) !! Branches(r) && KeySlots(l) !! KeySlots(r)
      && Distinct(l) && Distinct(r)
  }

  function Leaves(s: Shape): (n: nat)
    ensures n > 0
  {
    match s
    case KeyAt(_) => 1
    case Branch(_, l, r) => Leaves(l) + Leaves(r)
  }

  lemma {:induction false} LeavesAreKeys(s: Shape, tab: Table)
    requires Laid(s, tab)
    ensures Leaves(s) == Size(TrieOf(s, tab))
  {
    if s.Branch? {
      LeavesAreKeys(s.small, tab);
      LeavesAreKeys(s.large, tab);
    }
  }

  lemma {:induction false} Counts(s: Shape)
    requires Distinct(s)
    ensures |KeySlots(s)| == Leaves(s) && |Branches(s)| == Leaves(s) - 1
  {
    if s.Branch? {
      Counts(s.small);
      Counts(s.large);
      assert |Branches(s.small) + Branches(s.large)| == |Branches(s.small)| + |Branches(s.large)|;
    }
  }

  /** The slots below `n`, and no others. */
  ghost predicate Fills(slots: set<nat>, n: int)
  {
    forall i: nat :: i in slots <==> i < n
  }

  lemma Parts(s: Shape)
    requires s.Branch?
    ensures s.slot in Branches(s) && Branches(s.small) <= Branches(s) && Branches(s.large) <= Branches(s)
    ensures KeySlots(s.small) <= KeySlots(s) && KeySlots(s.large) <= KeySlots(s)
  {
  }

  // ------------------------------------------------------------------------------------
  // Frames
  // ------------------------------------------------------------------------------------

  ghost predicate SameSlot(tab: Table, tab': Table, i: nat)
    requires Slots(tab, i)
  {
    Slots(tab', i) && tab'.bits[i] == tab.bits[i] && tab'.small[i] == tab.small[i] && tab'.large[i] == tab.large[i]
  }

  /** What a shape uses is the same in both tables. */
  ghost predicate Same(s: Shape, tab: Table, tab': Table)
    requires Laid(s, tab)
  {
    match s
    case KeyAt(k) => k < |tab'.keys| && tab'.keys[k] == tab.keys[k]
    case Branch(i, l, r) => SameSlot(tab, tab', i) && Same(l, tab, tab') && Same(r, tab, tab')
  }

  lemma {:induction false} Frame(s: Shape, tab: Table, tab': Table)
    requires Laid(s, tab) && tab.area == tab'.area && Same(s, tab, tab')
    ensures Laid(s, tab') && TrieOf(s, tab') == TrieOf(s, tab)
  {
    if s.Branch? {
      Frame(s.small, tab, tab');
      Frame(s.large, tab, tab');
    }
  }

  lemma {:induction false} SameIf(s: Shape, tab: Table, tab': Table)
    requires Laid(s, tab)
    requires forall i :: i in Branches(s) && Slots(tab, i) ==> SameSlot(tab, tab', i)
    requires forall k :: k in KeySlots(s) && k < |tab.keys| ==> k < |tab'.keys| && tab'.keys[k] == tab.keys[k]
    ensures Same(s, tab, tab')
  {
    if s.Branch? {
      Parts(s);
      SameIf(s.small, tab, tab');
      SameIf(s.large, tab, tab');
    } else {
      assert s.slot in KeySlots(s);
    }
  }

  // ------------------------------------------------------------------------------------
  // References
  // ------------------------------------------------------------------------------------

  function Pointers(s: Shape, area: nat): (r: set<nat>)
    ensures forall p :: p in r ==> p in Branches(s) || (p >= area && p - area in KeySlots(s))
    ensures forall p :: p in Branches(s) || (p >= area && p - area in KeySlots(s)) ==> p in r
  {
    Branches(s) + set k | k in KeySlots(s) :: area + k
  }

  lemma {:induction false} LaidSlots(s: Shape, tab: Table)
    requires Laid(s, tab)
    ensures forall i :: i in Branches(s) ==> Slots(tab, i)
    ensures forall k :: k in KeySlots(s) ==> k < |tab.keys|
    ensures Ptr(s, tab.area) in Pointers(s, tab.area)
  {
    if s.Branch? {
      LaidSlots(s.small, tab);
      LaidSlots(s.large, tab);
    } else {
      assert s.slot in KeySlots(s);
    }
  }

  /** How often a pointer occurs in a slot. */
  function InSlot(tab: Table, i: nat, p: nat): nat
    requires Slots(tab, i)
  {
    (if tab.small[i] == p then 1 else 0) + (if tab.large[i] == p then 1 else 0)
  }

  /** How often a pointer occurs in the slots of a shape. */
  function References(s: Shape, tab: Table, p: nat): nat
    requires Laid(s, tab)
  {
    match s
    case KeyAt(_) => 0
    case Branch(i, l, r) => InSlot(tab, i, p) + References(l, tab, p) + References(r, tab, p)
  }

  lemma {:induction false} Unreferenced(s: Shape, tab: Table, p: nat)
    requires Laid(s, tab) && p !in Pointers(s, tab.area)
    ensures References(s, tab, p) == 0
  {
    if s.Branch? {
      LaidSlots(s.small, tab);
      LaidSlots(s.large, tab);
      Unreferenced(s.small, tab, p);
      Unreferenced(s.large, tab, p);
    }
  }

  /** Every slot of a trie is referenced exactly once, except the root, which is not referenced. */
  lemma {:induction false} ReferencedOnce(s: Shape, tab: Table, p: nat)
    requires Laid(s, tab) && Distinct(s) && p in Pointers(s, tab.area)
    ensures References(s, tab, p) == if p == Ptr(s, tab.area) then 0 else 1
  {
    if s.Branch? {
      var l, r, a := s.small, s.large, tab.area;
      LaidSlots(l, tab);
      LaidSlots(r, tab);
      if p in Pointers(l, a) {
        assert p !in Pointers(r, a);
        ReferencedOnce(l, tab, p);
        Unreferenced(r, tab, p);
      } else if p in Pointers(r, a) {
        ReferencedOnce(r, tab, p);
        Unreferenced(l, tab, p);
      } else {
        Unreferenced(l, tab, p);
        Unreferenced(r, tab, p);
      }
    }
  }

  lemma {:induction false} ReferenceIn(s: Shape, tab: Table, i: nat, p: nat)
    requires Laid(s, tab) && i in Branches(s) && Slots(tab, i)
    ensures InSlot(tab, i, p) <= References(s, tab, p)
    ensures InSlot(tab, i, p) > 0 ==> p in Pointers(s, tab.area)
  {
    LaidSlots(s, tab);
    LaidSlots(s.small, tab);
    LaidSlots(s.large, tab);
    if i in Branches(s.small) {
      ReferenceIn(s.small, tab, i, p);
    } else if i in Branches(s.large) {
      ReferenceIn(s.large, tab, i, p);
    }
  }

  lemma {:induction false} ReferencesIn(s: Shape, tab: Table, i: nat, j: nat, p: nat)
    requires Laid(s, tab) && Distinct(s) && i in Branches(s) && j in Branches(s) && i != j && Slots(tab, i) && Slots(tab, j)
    ensures InSlot(tab, i, p) + InSlot(tab, j, p) <= References(s, tab, p)
  {
    var l, r := s.small, s.large;
    if i in Branches(l) && j in Branches(l) {
      ReferencesIn(l, tab, i, j, p);
    } else if i in Branches(r) && j in Branches(r) {
      ReferencesIn(r, tab, i, j, p);
    } else {
      if i in Branches(l) { ReferenceIn(l, tab, i, p); }
      if j in Branches(l) { ReferenceIn(l, tab, j, p); }
      if i in Branches(r) { ReferenceIn(r, tab, i, p); }
      if j in Branches(r) { ReferenceIn(r, tab, j, p); }
    }
  }

  /** No pointer occurs in two places. */
  lemma OneReference(s: Shape, tab: Table, i: nat, j: nat, p: nat)
    requires Laid(s, tab) && Distinct(s) && i in Branches(s) && j in Branches(s) && Slots(tab, i) && Slots(tab, j)
    ensures InSlot(tab, i, p) <= 1 && (i != j ==> InSlot(tab, i, p) + InSlot(tab, j, p) <= 1)
    ensures p == Ptr(s, tab.area) ==> InSlot(tab, i, p) == 0
  {
    ReferenceIn(s, tab, i, p);
    ReferenceIn(s, tab, j, p);
    if i != j { ReferencesIn(s, tab, i, j, p); }
    if p in Pointers(s, tab.area) { ReferencedOnce(s, tab, p); } else { Unreferenced(s, tab, p); }
  }
}
