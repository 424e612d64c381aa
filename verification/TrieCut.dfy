/** The loop that chains the kept branches of a path. */
module TrieCut {
  import opened Keys
  import opened Trie
  import opened TrieLayout
  import opened TrieWalk
  import opened TriePrune

  /** Goes down a path and links each branch that the path leaves on the side of `pointers` to the next
      such branch, the last one to the key at the end; the first one is the new root. */
  method ChainKept(pointers: array<nat>, cut: array<nat>, path: seq<nat>, root: nat) returns (newRoot: nat)
    requires pointers != cut && cut.Length == pointers.Length && cut[..] == pointers[..] && Along(pointers[..], path)
    requires forall i, j :: 0 <= i < j < |path| - 1 ==> path[i] != path[j]
    requires path[0] == root && NextKept(pointers[..], path, 0) < |path| - 1
    modifies cut
    ensures Chained(pointers[..], cut[..], path) && newRoot == path[NextKept(pointers[..], path, 0)]
    ensures forall x :: 0 <= x < cut.Length && cut[x] != pointers[x] ==> KeptSlot(pointers[..], path, x)
  {
    hide NextKept, Chained, ChainedAt, KeptSlot;
    ghost var side := pointers[..];
    var rootStored, posSave := false, root;
    newRoot := root;
    ghost var last := 0;
    var i := 0;
    while i < |path| - 1
      invariant 0 <= i < |path| && pointers[..] == side
      invariant !rootStored ==> cut[..] == side && NextKept(side, path, 0) == NextKept(side, path, i)
      invariant rootStored ==> last < i && newRoot == path[NextKept(side, path, 0)] && posSave == path[last] && side[path[last]] == path[last + 1]
      invariant rootStored ==> NextKept(side, path, last + 1) == NextKept(side, path, i)
      invariant rootStored ==> forall k :: 0 <= k < last ==> ChainedAt(side, cut[..], path, k)
      invariant rootStored ==> forall k {:trigger side[path[k]]} :: last < k < i ==> side[path[k]] != path[k + 1]
      invariant forall x :: 0 <= x < cut.Length && cut[x] != side[x] ==> KeptSlot(side, path, x)
    {
      KeptHere(side, path, i);
      if pointers[path[i]] == path[i + 1] {
        if !rootStored {
          NoneBefore(side, path, i);
          rootStored, newRoot, posSave := true, path[i], path[i];
        } else {
          KeptSlotAt(side, path, last);
          ghost var before := cut[..];
          cut[posSave] := path[i];
          ChainGrows(side, before, cut[..], path, last, i);
          posSave := path[i];
        }
        last := i;
      }
      i := i + 1;
    }
    KeptHere(side, path, i);
    KeptSlotAt(side, path, last);
    ghost var before := cut[..];
    cut[posSave] := path[|path| - 1];
    ChainGrows(side, before, cut[..], path, last, |path| - 1);
    ChainedAll(side, cut[..], path);
  }

  lemma KeptHere(side: seq<nat>, p: seq<nat>, i: nat)
    requires Along(side, p) && i < |p|
    ensures i < |p| - 1 ==> p[i] < |side| && NextKept(side, p, i) == if side[p[i]] == p[i + 1] then i else NextKept(side, p, i + 1)
    ensures i == |p| - 1 ==> NextKept(side, p, i) == i
  {
  }

  /** In front of the first kept branch nothing is kept. */
  lemma {:induction false} NoneBefore(side: seq<nat>, p: seq<nat>, i: nat)
    requires Along(side, p) && i < |p| - 1 && NextKept(side, p, 0) == NextKept(side, p, i) == i
    ensures forall k :: 0 <= k < i ==> ChainedAt(side, side, p, k)
  {
    hide ChainedAt;
    forall k | 0 <= k < i
      ensures ChainedAt(side, side, p, k)
    {
      NotKept(side, p, 0, k, i);
    }
  }

  lemma {:induction false} NotKept(side: seq<nat>, p: seq<nat>, j: nat, k: nat, i: nat)
    requires Along(side, p) && j <= k < i < |p| - 1 && NextKept(side, p, j) == i
    ensures ChainedAt(side, side, p, k)
    decreases k - j
  {
    if j < k { NotKept(side, p, j + 1, k, i); }
  }

  lemma KeptSlotAt(side: seq<nat>, p: seq<nat>, k: nat)
    requires Along(side, p) && k < |p| - 1 && side[p[k]] == p[k + 1]
    ensures KeptSlot(side, p, p[k])
  {
  }

  /** Linking the last kept branch to the next place chains all up to there. */
  lemma ChainGrows(side: seq<nat>, before: seq<nat>, cut: seq<nat>, p: seq<nat>, last: nat, i: nat)
    requires Along(side, p) && |before| == |side| && last < i < |p| && NextKept(side, p, last + 1) == i
    requires forall a, b :: 0 <= a < b < |p| - 1 ==> p[a] != p[b]
    requires forall k :: 0 <= k < last ==> ChainedAt(side, before, p, k)
    requires forall k {:trigger side[p[k]]} :: last < k < i ==> side[p[k]] != p[k + 1]
    requires p[last] < |side| && cut == before[p[last] := p[i]]
    ensures forall k :: 0 <= k < i ==> ChainedAt(side, cut, p, k)
  {
    hide *;
    forall k | 0 <= k < i
      ensures ChainedAt(side, cut, p, k)
    {
      AlongAt(side, p, k);
      if k < last { assert p[k] != p[last] && ChainedAt(side, before, p, k); }
      if last < k { assert side[p[k]] != p[k + 1]; }
      LinkedAt(side, before, cut, p, last, i, k);
    }
  }

  lemma LinkedAt(side: seq<nat>, before: seq<nat>, cut: seq<nat>, p: seq<nat>, last: nat, i: nat, k: nat)
    requires Along(side, p) && |before| == |side| && last < i < |p| && NextKept(side, p, last + 1) == i && k < i && p[k] < |side|
    requires k < last ==> p[k] != p[last] && ChainedAt(side, before, p, k)
    requires last < k ==> side[p[k]] != p[k + 1]
    requires p[last] < |side| && cut == before[p[last] := p[i]]
    ensures ChainedAt(side, cut, p, k)
  {
    hide *;
    ChainedAtIs(side, cut, p, k);
    ChainedAtIs(side, before, p, k);
  }

  lemma AlongAt(side: seq<nat>, p: seq<nat>, k: nat)
    requires Along(side, p)
    ensures |p| > 0 && (k < |p| - 1 ==> p[k] < |side|)
  {
  }

  lemma ChainedAtIs(side: seq<nat>, side': seq<nat>, p: seq<nat>, k: nat)
    requires Along(side, p) && |side'| == |side| && k < |p| - 1
    ensures p[k] < |side| && NextKept(side, p, k + 1) < |p|
    ensures ChainedAt(side, side', p, k) <==> (side[p[k]] == p[k + 1] ==> side'[p[k]] == p[NextKept(side, p, k + 1)])
  {
    hide NextKept;
  }

  lemma ChainedAll(side: seq<nat>, cut: seq<nat>, p: seq<nat>)
    requires Along(side, p) && |cut| == |side| && forall k :: 0 <= k < |p| - 1 ==> ChainedAt(side, cut, p, k)
    ensures Chained(side, cut, p)
  {
    hide ChainedAt;
  }

  /** The slots on a path are different ones. */
  lemma {:induction false} PathDistinct(s: Shape, tab: Table, r: nat, i: nat, j: nat)
    requires Laid(s, tab) && Distinct(s) && r < Leaves(s) && i < j < |PathTo(s, tab.area, r)| - 1
    ensures PathTo(s, tab.area, r)[i] != PathTo(s, tab.area, r)[j]
  {
    PathParts(s, tab, r, true);
    var c, w := Child(s, r), ChildIndex(s, r);
    PathEnds(c, tab, w);
    hide PathTo, Laid;
    if i > 0 { PathDistinct(c, tab, w, i - 1, j - 1); }
  }

  /** The path to a key that is not the outermost one turns to the side at some branch. */
  lemma {:induction false} TurnsSomewhere(s: Shape, tab: Table, r: nat, large: bool)
    requires Laid(s, tab) && Distinct(s) && r < Leaves(s) && (if large then r > 0 else r + 1 < Leaves(s))
    ensures var side, p := SideOf(tab, large), PathTo(s, tab.area, r); Along(side, p) && NextKept(side, p, 0) < |p| - 1
  {
    var side, p := SideOf(tab, large), PathTo(s, tab.area, r);
    var c, w := Child(s, r), ChildIndex(s, r);
    PathAlong(s, tab, r, large);
    PathParts(s, tab, r, large);
    if (r >= Leaves(s.small)) != large {
      PathAlong(c, tab, w, large);
      TurnsSomewhere(c, tab, w, large);
      NextKeptLater(side, s.slot, PathTo(c, tab.area, w), 0);
    }
    hide PathTo, Laid, Distinct;
    FirstKept(side, p);
  }
}
