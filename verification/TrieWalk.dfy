/** Paths through a laid-out trie: to a key by position, from one key to its neighbours, and to the
part that the second stage of a search singles out. */
module TrieWalk {
  import opened Keys
  import opened Trie
  import opened TrieLayout

  /** The pointers from the root down to the key at position `i`. */
  function PathTo(s: Shape, area: nat, i: nat): (p: seq<nat>)
    requires i < Leaves(s)
    ensures |p| > 0 && p[0] == Ptr(s, area)
  {
    match s
    case KeyAt(_) => [Ptr(s, area)]
    case Branch(_, l, r) => [Ptr(s, area)] + if i < Leaves(l) then PathTo(l, area, i) else PathTo(r, area, i - Leaves(l))
  }

  function KeySlot(s: Shape, i: nat): (k: nat)
    requires i < Leaves(s)
  {
    match s
    case KeyAt(k) => k
    case Branch(_, l, r) => if i < Leaves(l) then KeySlot(l, i) else KeySlot(r, i - Leaves(l))
  }

  /** The step of a path at its start. */
  function Child(s: Shape, i: nat): (c: Shape)
    requires s.Branch? && i < Leaves(s)
    ensures c < s
  {
    if i < Leaves(s.small) then s.small else s.large
  }

  function ChildIndex(s: Shape, i: nat): (j: nat)
    requires s.Branch? && i < Leaves(s)
    ensures j < Leaves(Child(s, i))
  {
    if i < Leaves(s.small) then i else i - Leaves(s.small)
  }

  lemma PathStep(s: Shape, area: nat, i: nat)
    requires s.Branch? && i < Leaves(s)
    ensures PathTo(s, area, i) == [s.slot] + PathTo(Child(s, i), area, ChildIndex(s, i))
    ensures KeySlot(s, i) == KeySlot(Child(s, i), ChildIndex(s, i))
  {
  }

  /** A path ends at its key, and goes through branches only. */
  lemma {:induction false} PathEnds(s: Shape, tab: Table, i: nat)
    requires Laid(s, tab) && i < Leaves(s)
    ensures var p := PathTo(s, tab.area, i);
            p[|p| - 1] == tab.area + KeySlot(s, i) && forall j :: 0 <= j < |p| - 1 ==> p[j] in Branches(s) && Slots(tab, p[j])
    ensures KeySlot(s, i) in KeySlots(s) && KeySlot(s, i) < |tab.keys| && |PathTo(s, tab.area, i)| <= Leaves(s)
  {
    if s.Branch? {
      PathStep(s, tab.area, i);
      PathEnds(Child(s, i), tab, ChildIndex(s, i));
      Parts(s);
    }
  }

  lemma {:induction false} KeyAtPosition(s: Shape, tab: Table, i: nat)
    requires Laid(s, tab) && i < Leaves(s)
    ensures KeySlot(s, i) < |tab.keys| && i < Size(TrieOf(s, tab)) && tab.keys[KeySlot(s, i)] == Contents(TrieOf(s, tab))[i]
  {
    LeavesAreKeys(s, tab);
    if s.Branch? {
      LeavesAreKeys(s.small, tab);
      PathStep(s, tab.area, i);
      KeyAtPosition(Child(s, i), tab, ChildIndex(s, i));
    }
  }

  /** The two children of a branch are told apart by their pointers. */
  lemma PointersDiffer(s: Shape, tab: Table)
    requires Laid(s, tab) && Distinct(s) && s.Branch?
    ensures Ptr(s.small, tab.area) != Ptr(s.large, tab.area)
  {
    LaidSlots(s.small, tab);
    LaidSlots(s.large, tab);
    Parts(s);
  }

  /** A step of a path to the small or the large side. */
  ghost predicate Turns(tab: Table, p: seq<nat>, k: nat, large: bool)
    requires k + 1 < |p|
  {
    && Slots(tab, p[k])
    && if large then tab.large[p[k]] == p[k + 1] && tab.small[p[k]] != p[k + 1]
       else tab.small[p[k]] == p[k + 1] && tab.large[p[k]] != p[k + 1]
  }

  /** All steps from `from` on go to one side. */
  ghost predicate AllTurn(tab: Table, p: seq<nat>, from: nat, large: bool)
  {
    forall k :: from <= k < |p| - 1 ==> Turns(tab, p, k, large)
  }

  lemma FirstTurn(s: Shape, tab: Table, i: nat)
    requires Laid(s, tab) && Distinct(s) && s.Branch? && i < Leaves(s)
    ensures var p := PathTo(s, tab.area, i); 1 < |p| && Turns(tab, p, 0, i >= Leaves(s.small))
    ensures Laid(Child(s, i), tab) && Distinct(Child(s, i))
  {
    PointersDiffer(s, tab);
    PathStep(s, tab.area, i);
  }

  lemma LaterTurn(tab: Table, x: nat, p: seq<nat>, k: nat, large: bool)
    requires k + 1 < |p|
    ensures Turns(tab, [x] + p, k + 1, large) == Turns(tab, p, k, large)
  {
  }

  lemma LaterTurns(tab: Table, x: nat, p: seq<nat>, from: nat, large: bool)
    requires AllTurn(tab, p, from, large)
    ensures AllTurn(tab, [x] + p, from + 1, large)
  {
    hide Turns;
    forall k | from + 1 <= k < |p|
      ensures Turns(tab, [x] + p, k, large)
    {
      LaterTurn(tab, x, p, k - 1, large);
    }
  }

  lemma TurnsFrom(tab: Table, p: seq<nat>, large: bool)
    requires |p| > 1 && Turns(tab, p, 0, large) && AllTurn(tab, p, 1, large)
    ensures AllTurn(tab, p, 0, large)
  {
  }

  lemma ConsTake<T>(x: T, a: seq<T>, n: nat, b: seq<T>)
    requires n <= |a|
    ensures [x] + (a[..n] + b) == ([x] + a)[..n + 1] + b
  {
  }

  /** The path to the first or the last key never turns to the other side. */
  lemma {:induction false} EdgePath(s: Shape, tab: Table, large: bool)
    requires Laid(s, tab) && Distinct(s)
    ensures AllTurn(tab, PathTo(s, tab.area, if large then Leaves(s) - 1 else 0), 0, large)
  {
    if s.Branch? {
      var i, c := if large then Leaves(s) - 1 else 0, if large then s.large else s.small;
      FirstTurn(s, tab, i);
      PathStep(s, tab.area, i);
      EdgePath(c, tab, large);
      assert Child(s, i) == c && ChildIndex(s, i) == (if large then Leaves(c) - 1 else 0);
      hide Turns, AllTurn, PathTo, Laid, Distinct;
      LaterTurns(tab, s.slot, PathTo(c, tab.area, ChildIndex(s, i)), 0, large);
      TurnsFrom(tab, PathTo(s, tab.area, i), large);
    }
  }

  // ------------------------------------------------------------------------------------
  // The neighbours of a key
  // ------------------------------------------------------------------------------------

  /** The depth of the last branch that the path to a key, not the last one, leaves on its small side. */
  function NextTurn(s: Shape, i: nat): (j: nat)
    requires i + 1 < Leaves(s)
  {
    if i + 1 == Leaves(s.small) then 0 else 1 + NextTurn(Child(s, i), ChildIndex(s, i))
  }

  /** What lies on the large side there. */
  function NextPart(s: Shape, i: nat): (c: Shape)
    requires i + 1 < Leaves(s)
  {
    if i + 1 == Leaves(s.small) then s.large else NextPart(Child(s, i), ChildIndex(s, i))
  }

  /** At depth `j` the path turns to one side, and only to the other one below; `c` lies on that other side. */
  ghost predicate Crosses(tab: Table, p: seq<nat>, j: nat, c: Shape, toLarge: bool)
  {
    && j + 1 < |p| && Turns(tab, p, j, !toLarge) && AllTurn(tab, p, j + 1, toLarge)
    && Laid(c, tab) && Distinct(c) && Ptr(c, tab.area) == if toLarge then tab.large[p[j]] else tab.small[p[j]]
  }

  lemma CrossesLater(tab: Table, x: nat, p: seq<nat>, j: nat, c: Shape, toLarge: bool)
    requires Crosses(tab, p, j, c, toLarge)
    ensures Crosses(tab, [x] + p, j + 1, c, toLarge)
  {
    LaterTurn(tab, x, p, j, !toLarge);
    LaterTurns(tab, x, p, j + 1, toLarge);
    hide AllTurn, Laid, Distinct;
    assert ([x] + p)[j + 1] == p[j];
  }

  /** Where the step from one key to the next one takes place. */
  lemma CrossesHere(s: Shape, tab: Table, i: nat, toLarge: bool)
    requires Laid(s, tab) && Distinct(s) && s.Branch? && i == if toLarge then Leaves(s.small) - 1 else Leaves(s.small)
    ensures Crosses(tab, PathTo(s, tab.area, i), 0, if toLarge then s.large else s.small, toLarge)
    ensures PathTo(s, tab.area, i)[..1] == [s.slot]
  {
    var c, w := Child(s, i), ChildIndex(s, i);
    PathStep(s, tab.area, i);
    FirstTurn(s, tab, i);
    EdgePath(c, tab, toLarge);
    hide PathTo, AllTurn;
    LaterTurns(tab, s.slot, PathTo(c, tab.area, w), 0, toLarge);
  }

  lemma NextUnfolds(s: Shape, i: nat)
    requires i + 1 < Leaves(s)
    ensures s.Branch? && (i + 1 == Leaves(s.small) ==> NextTurn(s, i) == 0 && NextPart(s, i) == s.large)
    ensures i + 1 != Leaves(s.small) ==>
              ChildIndex(s, i) + 1 < Leaves(Child(s, i)) && Child(s, i + 1) == Child(s, i) && ChildIndex(s, i + 1) == ChildIndex(s, i) + 1
    ensures i + 1 != Leaves(s.small) ==>
              NextTurn(s, i) == 1 + NextTurn(Child(s, i), ChildIndex(s, i)) && NextPart(s, i) == NextPart(Child(s, i), ChildIndex(s, i))
    ensures i + 1 == Leaves(s.small) ==> Child(s, i + 1) == s.large && ChildIndex(s, i + 1) == 0
  {
  }

  lemma ChildLaid(s: Shape, tab: Table, i: nat)
    requires Laid(s, tab) && Distinct(s) && s.Branch? && i < Leaves(s)
    ensures Laid(Child(s, i), tab) && Distinct(Child(s, i))
  {
  }

  /** Going up to the last small turn, over to the large side and down to its first key. */
  lemma {:induction false} NextPath(s: Shape, tab: Table, i: nat)
    requires Laid(s, tab) && Distinct(s) && i + 1 < Leaves(s)
    ensures var p, j, c := PathTo(s, tab.area, i), NextTurn(s, i), NextPart(s, i);
            && Crosses(tab, p, j, c, true) && j + 1 < |p|
            && PathTo(s, tab.area, i + 1) == p[..j + 1] + PathTo(c, tab.area, 0)
  {
    hide *;
    NextUnfolds(s, i);
    PathStep(s, tab.area, i);
    PathStep(s, tab.area, i + 1);
    if i + 1 == Leaves(s.small) {
      CrossesHere(s, tab, i, true);
      CrossesInside(tab, PathTo(s, tab.area, i), 0, s.large, true);
    } else {
      var c, w := Child(s, i), ChildIndex(s, i);
      ChildLaid(s, tab, i);
      NextPath(c, tab, w);
      CrossesLater(tab, s.slot, PathTo(c, tab.area, w), NextTurn(c, w), NextPart(c, w), true);
      ConsTake(s.slot, PathTo(c, tab.area, w), NextTurn(s, i), PathTo(NextPart(s, i), tab.area, 0));
    }
  }

  lemma CrossesInside(tab: Table, p: seq<nat>, j: nat, c: Shape, toLarge: bool)
    requires Crosses(tab, p, j, c, toLarge)
    ensures j + 1 < |p| && Slots(tab, p[j]) && Slots(tab, p[j]) && Laid(c, tab) && Distinct(c)
    ensures p[j] < |tab.small| && p[j] < |tab.large| && Ptr(c, tab.area) == if toLarge then tab.large[p[j]] else tab.small[p[j]]
  {
  }

  /** The depth of the last branch that the path to a key, not the first one, leaves on its large side. */
  function PreviousTurn(s: Shape, i: nat): (j: nat)
    requires 0 < i < Leaves(s)
  {
    if i == Leaves(s.small) then 0 else 1 + PreviousTurn(Child(s, i), ChildIndex(s, i))
  }

  function PreviousPart(s: Shape, i: nat): (c: Shape)
    requires 0 < i < Leaves(s)
  {
    if i == Leaves(s.small) then s.small else PreviousPart(Child(s, i), ChildIndex(s, i))
  }

  lemma PreviousUnfolds(s: Shape, i: nat)
    requires 0 < i < Leaves(s)
    ensures s.Branch? && (i == Leaves(s.small) ==> PreviousTurn(s, i) == 0 && PreviousPart(s, i) == s.small)
    ensures i != Leaves(s.small) ==>
              0 < ChildIndex(s, i) < Leaves(Child(s, i)) && Child(s, i - 1) == Child(s, i) && ChildIndex(s, i - 1) == ChildIndex(s, i) - 1
    ensures i != Leaves(s.small) ==>
              PreviousTurn(s, i) == 1 + PreviousTurn(Child(s, i), ChildIndex(s, i)) && PreviousPart(s, i) == PreviousPart(Child(s, i), ChildIndex(s, i))
    ensures i == Leaves(s.small) ==> Child(s, i - 1) == s.small && ChildIndex(s, i - 1) == Leaves(s.small) - 1
  {
  }

  lemma {:induction false} PreviousPath(s: Shape, tab: Table, i: nat)
    requires Laid(s, tab) && Distinct(s) && 0 < i < Leaves(s)
    ensures var p, j, c := PathTo(s, tab.area, i), PreviousTurn(s, i), PreviousPart(s, i);
            && Crosses(tab, p, j, c, false) && j + 1 < |p|
            && PathTo(s, tab.area, i - 1) == p[..j + 1] + PathTo(c, tab.area, Leaves(c) - 1)
  {
    hide *;
    PreviousUnfolds(s, i);
    PathStep(s, tab.area, i);
    PathStep(s, tab.area, i - 1);
    if i == Leaves(s.small) {
      CrossesHere(s, tab, i, false);
      CrossesInside(tab, PathTo(s, tab.area, i), 0, s.small, false);
    } else {
      var c, w := Child(s, i), ChildIndex(s, i);
      ChildLaid(s, tab, i);
      PreviousPath(c, tab, w);
      var n := PreviousPart(s, i);
      CrossesLater(tab, s.slot, PathTo(c, tab.area, w), PreviousTurn(c, w), n, false);
      ConsTake(s.slot, PathTo(c, tab.area, w), PreviousTurn(s, i), PathTo(n, tab.area, Leaves(n) - 1));
    }
  }

  // ------------------------------------------------------------------------------------
  // The part a query belongs to
  // ------------------------------------------------------------------------------------

  /** Towards the query. */
  function Toward(s: Shape, tab: Table, q: Key): (c: Shape)
    requires Laid(s, tab) && s.Branch? && tab.bits[s.slot] < |q|
    ensures c < s && Laid(c, tab)
  {
    if q[tab.bits[s.slot]] then s.large else s.small
  }

  predicate WholePart(s: Shape, tab: Table, d: nat)
    requires Laid(s, tab)
  {
    s.KeyAt? || d <= tab.bits[s.slot]
  }

  predicate BitsBelow(s: Shape, tab: Table, n: nat)
    requires Laid(s, tab)
  {
    match s
    case KeyAt(_) => true
    case Branch(i, l, r) => tab.bits[i] < n && BitsBelow(l, tab, n) && BitsBelow(r, tab, n)
  }

  lemma {:induction false} WellFormedBits(s: Shape, tab: Table, bits: nat)
    requires Laid(s, tab) && WellFormed(TrieOf(s, tab), bits)
    ensures BitsBelow(s, tab, bits)
  {
    if s.Branch? {
      WellFormedBits(s.small, tab, bits);
      WellFormedBits(s.large, tab, bits);
    }
  }

  /** How many branches are above the part that lies wholly on one side of the query. */
  function Depth(s: Shape, tab: Table, q: Key, d: nat): (n: nat)
    requires Laid(s, tab) && BitsBelow(s, tab, |q|)
  {
    if WholePart(s, tab, d) then 0 else 1 + Depth(Toward(s, tab, q), tab, q, d)
  }

  function Part(s: Shape, tab: Table, q: Key, d: nat): (c: Shape)
    requires Laid(s, tab) && BitsBelow(s, tab, |q|)
    ensures Laid(c, tab)
  {
    if WholePart(s, tab, d) then s else Part(Toward(s, tab, q), tab, q, d)
  }

  /** How many keys are in front of that part. */
  function Offset(s: Shape, tab: Table, q: Key, d: nat): (n: nat)
    requires Laid(s, tab) && BitsBelow(s, tab, |q|)
    ensures n + Leaves(Part(s, tab, q, d)) <= Leaves(s)
  {
    if WholePart(s, tab, d) then 0
    else (if q[tab.bits[s.slot]] then Leaves(s.small) else 0) + Offset(Toward(s, tab, q), tab, q, d)
  }

  lemma TowardTrie(s: Shape, tab: Table, q: Key)
    requires Laid(s, tab) && s.Branch? && WellFormed(TrieOf(s, tab), |q|)
    ensures tab.bits[s.slot] < |q| && WellFormed(TrieOf(Toward(s, tab, q), tab), |q|)
    ensures TrieOf(Toward(s, tab, q), tab) == Side(TrieOf(s, tab), q)
    ensures Leaves(s.small) == Size(TrieOf(s, tab).left) && Leaves(s) == Size(TrieOf(s, tab))
    ensures Descend(TrieOf(s, tab), q) == (if q[tab.bits[s.slot]] then Leaves(s.small) else 0) + Descend(TrieOf(Toward(s, tab, q), tab), q)
    ensures Child(s, Descend(TrieOf(s, tab), q)) == Toward(s, tab, q)
    ensures ChildIndex(s, Descend(TrieOf(s, tab), q)) == Descend(TrieOf(Toward(s, tab, q), tab), q)
  {
    LeavesAreKeys(s.small, tab);
    LeavesAreKeys(s, tab);
  }

  /** The rank of the query is next to its part. */
  lemma {:induction false} PartRank(s: Shape, tab: Table, q: Key, d: nat)
    requires Laid(s, tab) && WellFormed(TrieOf(s, tab), |q|) && d < |q|
    ensures BitsBelow(s, tab, |q|)
    ensures Rank(TrieOf(s, tab), q, d) == Offset(s, tab, q, d) + if q[d] then Leaves(Part(s, tab, q, d)) else 0
  {
    WellFormedBits(s, tab, |q|);
    LeavesAreKeys(s, tab);
    if !WholePart(s, tab, d) {
      TowardTrie(s, tab, q);
      PartRank(Toward(s, tab, q), tab, q, d);
    }
  }

  /** All paths into the part share the way down to it. */
  function WayDown(s: Shape, tab: Table, q: Key, d: nat): (p: seq<nat>)
    requires Laid(s, tab) && BitsBelow(s, tab, |q|)
    ensures |p| == Depth(s, tab, q, d)
  {
    if WholePart(s, tab, d) then [] else [s.slot] + WayDown(Toward(s, tab, q), tab, q, d)
  }

  lemma PartUnfolds(s: Shape, tab: Table, q: Key, d: nat)
    requires Laid(s, tab) && BitsBelow(s, tab, |q|)
    ensures WholePart(s, tab, d) ==> Part(s, tab, q, d) == s && Offset(s, tab, q, d) == 0 && WayDown(s, tab, q, d) == []
    ensures !WholePart(s, tab, d) ==>
              && s.Branch? && tab.bits[s.slot] < |q|
              && var c, o := Toward(s, tab, q), Offset(s, tab, q, d);
              && c < s && Laid(c, tab) && BitsBelow(c, tab, |q|) && Part(s, tab, q, d) == Part(c, tab, q, d)
              && WayDown(s, tab, q, d) == [s.slot] + WayDown(c, tab, q, d)
              && (forall i :: o <= i < o + Leaves(Part(s, tab, q, d)) ==>
                    Child(s, i) == c && ChildIndex(s, i) == Offset(c, tab, q, d) + (i - o))
  {
  }

  lemma {:induction false} PathToPart(s: Shape, tab: Table, q: Key, d: nat, i: nat)
    requires Laid(s, tab) && BitsBelow(s, tab, |q|) && i < Leaves(Part(s, tab, q, d))
    ensures PathTo(s, tab.area, Offset(s, tab, q, d) + i) == WayDown(s, tab, q, d) + PathTo(Part(s, tab, q, d), tab.area, i)
  {
    hide *;
    PartUnfolds(s, tab, q, d);
    if !WholePart(s, tab, d) {
      var c, o := Toward(s, tab, q), Offset(s, tab, q, d);
      PathToPart(c, tab, q, d, i);
      PathStep(s, tab.area, o + i);
    }
  }

  /** The bits on a path: smaller than `d` on the first `n` branches, larger on the others. */
  ghost predicate BitsAround(tab: Table, p: seq<nat>, n: nat, d: nat)
  {
    forall j :: 0 <= j < |p| - 1 ==> Slots(tab, p[j]) && if j < n then tab.bits[p[j]] < d else tab.bits[p[j]] > d
  }

  lemma BitsAroundLater(tab: Table, x: nat, p: seq<nat>, n: nat, d: nat)
    requires BitsAround(tab, p, n, d) && Slots(tab, x) && tab.bits[x] < d
    ensures BitsAround(tab, [x] + p, n + 1, d)
  {
    var q := [x] + p;
    forall j | 0 <= j < |q| - 1
      ensures Slots(tab, q[j]) && if j < n + 1 then tab.bits[q[j]] < d else tab.bits[q[j]] > d
    {
      if j > 0 { assert q[j] == p[j - 1]; }
    }
  }

  lemma PartAbove(s: Shape, tab: Table, q: Key, d: nat)
    requires Laid(s, tab) && BitsBelow(s, tab, |q|) && !WholePart(s, tab, d)
    ensures s.Branch? && Slots(tab, s.slot) && tab.bits[s.slot] < d && tab.bits[s.slot] < |q|
    ensures var c := Toward(s, tab, q);
            && c < s && Laid(c, tab) && BitsBelow(c, tab, |q|) && Leaves(c) <= Leaves(s) && Depth(s, tab, q, d) == 1 + Depth(c, tab, q, d)
            && Part(s, tab, q, d) == Part(c, tab, q, d)
            && Offset(s, tab, q, d) == (if q[tab.bits[s.slot]] then Leaves(s.small) else 0) + Offset(c, tab, q, d)
            && (if q[tab.bits[s.slot]] then Leaves(s.small) else 0) + Leaves(c) <= Leaves(s)
  {
  }

  lemma PartHere(s: Shape, tab: Table, q: Key, d: nat)
    requires Laid(s, tab) && WellFormed(TrieOf(s, tab), |q|) && Probed(TrieOf(s, tab), q, d) && WholePart(s, tab, d)
    ensures BitsBelow(s, tab, |q|) && Descend(TrieOf(s, tab), q) < Leaves(s)
    ensures Depth(s, tab, q, d) == 0 && Part(s, tab, q, d) == s && Offset(s, tab, q, d) == 0
    ensures BitsAround(tab, PathTo(s, tab.area, Descend(TrieOf(s, tab), q)), 0, d)
  {
    LeavesAreKeys(s, tab);
    WellFormedBits(s, tab, |q|);
    WholeBranch(TrieOf(s, tab), q, d);
    PathBits(s, tab, Descend(TrieOf(s, tab), q), |q|);
    hide PathTo, WellFormed, Probed, Descend, BitsBelow;
  }

  /** The blind descent goes into the part; the bits above it are smaller than `d`, those in it are larger. */
  lemma {:induction false} PartBits(s: Shape, tab: Table, q: Key, d: nat)
    requires Laid(s, tab) && WellFormed(TrieOf(s, tab), |q|) && Probed(TrieOf(s, tab), q, d)
    ensures BitsBelow(s, tab, |q|)
    ensures var i, n, c := Descend(TrieOf(s, tab), q), Depth(s, tab, q, d), Part(s, tab, q, d);
            && Offset(s, tab, q, d) <= i < Offset(s, tab, q, d) + Leaves(c) <= Leaves(s)
            && n < |PathTo(s, tab.area, i)| && BitsAround(tab, PathTo(s, tab.area, i), n, d)
  {
    hide *;
    WellFormedBits(s, tab, |q|);
    if WholePart(s, tab, d) {
      PartHere(s, tab, q, d);
    } else {
      PartAbove(s, tab, q, d);
      TowardTrie(s, tab, q);
      NotWhole(s, tab, d);
      ProbedSide(TrieOf(s, tab), q, d);
      var c := Toward(s, tab, q);
      PartBits(c, tab, q, d);
      PathStep(s, tab.area, Descend(TrieOf(s, tab), q));
      BitsAroundLater(tab, s.slot, PathTo(c, tab.area, Descend(TrieOf(c, tab), q)), Depth(c, tab, q, d), d);
    }
  }

  lemma NotWhole(s: Shape, tab: Table, d: nat)
    requires Laid(s, tab)
    ensures WholePart(s, tab, d) <==> Whole(TrieOf(s, tab), d)
  {
  }

  /** Branch bits do not decrease on a path. */
  lemma {:induction false} PathBits(s: Shape, tab: Table, i: nat, bits: nat)
    requires Laid(s, tab) && WellFormed(TrieOf(s, tab), bits) && i < Leaves(s)
    ensures var p := PathTo(s, tab.area, i); forall j :: 0 <= j < |p| - 1 ==> Slots(tab, p[j]) && s.Branch? && tab.bits[s.slot] <= tab.bits[p[j]]
  {
    if s.Branch? {
      BitsIncrease(TrieOf(s, tab), bits);
      PathStep(s, tab.area, i);
      PathBits(Child(s, i), tab, ChildIndex(s, i), bits);
    }
  }

  lemma PathThroughPart(s: Shape, tab: Table, q: Key, d: nat, i: nat)
    requires Laid(s, tab) && BitsBelow(s, tab, |q|) && Offset(s, tab, q, d) <= i < Offset(s, tab, q, d) + Leaves(Part(s, tab, q, d))
    ensures var p, n := PathTo(s, tab.area, i), Depth(s, tab, q, d);
            && n < |p| && p[..n] == WayDown(s, tab, q, d) && p[n] == Ptr(Part(s, tab, q, d), tab.area)
            && p[n..] == PathTo(Part(s, tab, q, d), tab.area, i - Offset(s, tab, q, d))
  {
    hide *;
    var o, way, part := Offset(s, tab, q, d), WayDown(s, tab, q, d), Part(s, tab, q, d);
    PathToPart(s, tab, q, d, i - o);
    assert o + (i - o) == i;
    FrontAndRest(way, PathTo(part, tab.area, i - o));
  }

  /** The way down to the part is shared by the path of the blind descent and the path to the first key
      of the part; from the part on the latter only turns to the small side. */
  lemma PartOnPaths(s: Shape, tab: Table, q: Key, d: nat)
    requires Laid(s, tab) && WellFormed(TrieOf(s, tab), |q|) && Probed(TrieOf(s, tab), q, d)
    ensures BitsBelow(s, tab, |q|) && Descend(TrieOf(s, tab), q) < Leaves(s) && Offset(s, tab, q, d) < Leaves(s)
    ensures var p, w, n := PathTo(s, tab.area, Descend(TrieOf(s, tab), q)), PathTo(s, tab.area, Offset(s, tab, q, d)), Depth(s, tab, q, d);
            && n < |p| && n < |w| && p[..n] == w[..n] == WayDown(s, tab, q, d) && p[n] == w[n] == Ptr(Part(s, tab, q, d), tab.area)
            && w[n..] == PathTo(Part(s, tab, q, d), tab.area, 0)
  {
    hide *;
    PartBits(s, tab, q, d);
    PathThroughPart(s, tab, q, d, Descend(TrieOf(s, tab), q));
    PathThroughPart(s, tab, q, d, Offset(s, tab, q, d));
  }

  lemma FrontAndRest<T>(a: seq<T>, b: seq<T>)
    requires |b| > 0
    ensures (a + b)[..|a|] == a && (a + b)[|a|..] == b && (a + b)[|a|] == b[0]
  {
  }

  lemma {:induction false} PartDistinct(s: Shape, tab: Table, q: Key, d: nat)
    requires Laid(s, tab) && Distinct(s) && BitsBelow(s, tab, |q|)
    ensures Distinct(Part(s, tab, q, d))
  {
    if !WholePart(s, tab, d) {
      PartDistinct(Toward(s, tab, q), tab, q, d);
    }
  }

  /** If keys are in front of the part, the last turn to the large side is above the part. */
  lemma TurnAbovePart(s: Shape, tab: Table, q: Key, d: nat)
    requires Laid(s, tab) && Distinct(s) && WellFormed(TrieOf(s, tab), |q|) && Probed(TrieOf(s, tab), q, d)
    ensures BitsBelow(s, tab, |q|) && Offset(s, tab, q, d) < Leaves(s)
    ensures var w, n, o := PathTo(s, tab.area, Offset(s, tab, q, d)), Depth(s, tab, q, d), Offset(s, tab, q, d);
            && n < |w|
            && if o == 0 then AllTurn(tab, w, 0, false)
               else PreviousTurn(s, o) < n && Crosses(tab, w, PreviousTurn(s, o), PreviousPart(s, o), false)
  {
    PartOnPaths(s, tab, q, d);
    var w, n, o := PathTo(s, tab.area, Offset(s, tab, q, d)), Depth(s, tab, q, d), Offset(s, tab, q, d);
    if o == 0 {
      EdgePath(s, tab, false);
    } else {
      PreviousPath(s, tab, o);
      PartDistinct(s, tab, q, d);
      EdgePath(Part(s, tab, q, d), tab, false);
      TurnNotInTail(tab, w, n, PreviousTurn(s, o));
    }
  }

  lemma TurnNotInTail(tab: Table, w: seq<nat>, n: nat, j: nat)
    requires n < |w| && j + 1 < |w| && AllTurn(tab, w[n..], 0, false)
    ensures Turns(tab, w, j, true) ==> j < n
  {
    if n <= j { assert Turns(tab, w[n..], j - n, false); }
  }

  /** On every path the branch bits increase. */
  lemma {:induction false} PathBitsIncrease(s: Shape, tab: Table, i: nat, bits: nat, j: nat)
    requires Laid(s, tab) && WellFormed(TrieOf(s, tab), bits) && i < Leaves(s) && j + 1 < |PathTo(s, tab.area, i)| - 1
    ensures var p := PathTo(s, tab.area, i); Slots(tab, p[j]) && Slots(tab, p[j + 1]) && tab.bits[p[j]] < tab.bits[p[j + 1]]
  {
    var c := Child(s, i);
    PathStep(s, tab.area, i);
    if j == 0 {
      BitsIncrease(TrieOf(s, tab), bits);
      PathBits(c, tab, ChildIndex(s, i), bits);
    } else {
      PathBitsIncrease(c, tab, ChildIndex(s, i), bits, j - 1);
    }
  }
}
