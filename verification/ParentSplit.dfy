/** Parents that split and merge, with the children dealt out or put together. */
module ParentSplit {
  import opened BwTypes
  import opened InnerChain
  import opened InnerSearch
  import opened ParentLevel
  import opened ParentKids
  import opened ParentTerms
  import TreeRouting

  /** Where the base is cut: at the separator of the child that comes first on the right. */
  ghost predicate CutAt(p: Parent, m: nat, count: nat)
  {
    && p.chain.Base? && 0 < m < |p.kids| && 0 < count < |p.chain.items|
    && p.kids[m].low == LowAt(p.chain.items[|p.chain.items| - count].key)
  }

  lemma CutSeps(p: Parent, m: nat, count: nat)
    requires CutAt(p, m, count) && WellFormed(p.chain) && KidsOk(p)
    ensures var n := |p.chain.items| - count; p.chain.items[n] == SepOf(p.kids[m]) && p.chain.items[n] in Seps(p.chain)
    ensures var n := |p.chain.items| - count; forall s :: s in Behind(p.chain.items[n..], 1) <==> s in Seps(p.chain) && p.chain.items[n].key < s.key
  {
    var n := |p.chain.items| - count;
    KidsOkAt(p, m);
    BaseSeps(p.chain);
    hide KidsOk;
    assert p.chain.items[n] in Seps(p.chain);
    assert forall i :: 0 <= i < count ==> p.chain.items[n..][i] == p.chain.items[n + i];
  }

  /** Between its ends a child sees the same separators. */
  ghost predicate SameAround(p: Parent, m: nat, p': Parent)
    requires m < |p.kids|
  {
    forall s: Sep :: Inside(p, m, s.key) || (m > 0 && s.key == SepOf(p.kids[m]).key) ==> (s in Seps(p'.chain) <==> s in Seps(p.chain))
  }

  /** A child that comes under another parent, next to the same neighbours or first of all. */
  lemma KidElsewhere(p: Parent, m: nat, p': Parent, n: nat)
    requires KidOk(p, m) && n < |p'.kids| && p'.kids[n] == p.kids[m] && SameBound(NextOf(p', n), NextOf(p, m)) && SameAround(p, m, p')
    requires n > 0 ==> m > 0 && p'.kids[n - 1] == p.kids[m - 1]
    ensures KidOk(p', n) && (Fresh(p', n) ==> Fresh(p, m))
  {
    hide Seps, NextOf;
    assert p.kids[m].top.MergeTop? && Has(p'.chain, p.kids[m].top.sep.key) ==> Has(p.chain, p.kids[m].top.sep.key);
    assert Fresh(p', n) ==> Fresh(p, m);
  }

  lemma LeftSeps(p: Parent, m: nat, count: nat, newId: NodeId, version: nat)
    requires CutAt(p, m, count) && KidsOk(p)
    ensures var l := LeftHalf(p, m, count, newId, version);
            && (forall s :: s in Seps(l.chain) <==> s in Seps(p.chain) && s.key < SepOf(p.kids[m]).key)
            && HighOf(l.chain) == HighAt(SepOf(p.kids[m]).key, newId) && LowOf(l.chain) == LowOf(p.chain) && LowIdOf(l.chain) == LowIdOf(p.chain)
  {
    hide KidsOk;
  }

  lemma LeftKid(p: Parent, m: nat, count: nat, newId: NodeId, version: nat, n: nat)
    requires CutAt(p, m, count) && KidsOk(p) && n < m
    ensures var l := LeftHalf(p, m, count, newId, version); KidOk(l, n) && (Fresh(l, n) ==> Fresh(p, n))
  {
    var l := LeftHalf(p, m, count, newId, version);
    LeftSeps(p, m, count, newId, version);
    KidsOkAt(p, n);
    NextIs(p, n);
    NextIs(l, n);
    KidBefore(p, n, m);
    hide Seps, LowOf, HighOf, LowIdOf, NextOf, KidOk, KidsOk, LeftHalf, CutAt;
    assert l.kids == p.kids[..m] by { LeftIs(p, m, count, newId, version); }
    KidElsewhere(p, n, l, n);
  }

  lemma LeftIs(p: Parent, m: nat, count: nat, newId: NodeId, version: nat)
    requires CutAt(p, m, count)
    ensures LeftHalf(p, m, count, newId, version).kids == p.kids[..m]
    ensures RightHalf(p, m, count, newId, version).kids == p.kids[m..]
  {
  }

  lemma OrderedAt(p: Parent, a: nat, b: nat)
    requires Framed(p) && a < b < |p.kids|
    ensures p.kids[b].low == LowAt(SepOf(p.kids[b]).key) && StrictlyAbove(SepOf(p.kids[b]).key, p.kids[a].low)
  {
    hide LowOf, HighOf, LowIdOf;
    assert p.kids[b].low.LowAt? && StrictlyAbove(p.kids[b].low.key, p.kids[a].low);
  }

  /** What lies at or inside a child lies before the next ones. */
  lemma KidBefore(p: Parent, n: nat, m: nat)
    requires Framed(p) && n < m < |p.kids|
    ensures forall k :: Inside(p, n, k) || (n > 0 && k == SepOf(p.kids[n]).key) ==> k < SepOf(p.kids[m]).key
    ensures p.kids[m].low == LowAt(SepOf(p.kids[m]).key) && (p.kids[n].low.LowAt? ==> p.kids[n].low.key < SepOf(p.kids[m]).key)
  {
    OrderedAt(p, n, m);
    NextIs(p, n);
    if n + 1 < m { OrderedAt(p, n + 1, m); }
    if n > 0 { OrderedAt(p, 0, n); }
    hide Framed, SepOf, NextOf;
  }

  ghost predicate NewParent(p': Parent, lows: map<NodeId, Low>, seen: set<Inner>)
  {
    ChainOk(p'.chain, lows) && KidsOk(p') && KidsNamed(p'.kids, lows) && Unseen(p', seen)
  }

  lemma LeftStep(p: Parent, m: nat, count: nat, newId: NodeId, version: nat, lows: map<NodeId, Low>, seen: set<Inner>, cs: set<Inner>)
    requires ChainOk(p.chain, lows) && KidsOk(p) && KidsNamed(p.kids, lows) && Unseen(p, seen) && CutAt(p, m, count)
    requires Names(lows, newId, LowAt(SepOf(p.kids[m]).key))
    requires forall c :: c in cs ==> Seps(c) <= Seps(p.chain)
    ensures NewParent(LeftHalf(p, m, count, newId, version), lows, seen + cs)
    ensures SameLow(p.chain, LeftHalf(p, m, count, newId, version).chain)
  {
    var l := LeftHalf(p, m, count, newId, version);
    LeftSeps(p, m, count, newId, version);
    assert ChainOk(l.chain, lows);
    LeftIs(p, m, count, newId, version);
    hide Seps, LowOf, HighOf, LowIdOf, KidOk, ChainOk, Listed, LeftHalf, CutAt;
    forall n | 0 <= n < m
      ensures p.kids[n].low.LowAt? ==> p.kids[n].low.key < SepOf(p.kids[m]).key
    {
      KidBefore(p, n, m);
    }
    assert Framed(l);
    forall n | 0 <= n < m
      ensures KidOk(l, n) && (Fresh(l, n) ==> Fresh(p, n))
    {
      LeftKid(p, m, count, newId, version, n);
    }
    hide Framed;
    UnseenPart(p, l, 0, seen, cs);
  }

  ghost predicate SameLow(c: Inner, c': Inner)
  {
    LowOf(c') == LowOf(c)
  }

  lemma UnseenPart(p: Parent, p': Parent, from: nat, seen: set<Inner>, cs: set<Inner>)
    requires Unseen(p, seen) && from + |p'.kids| <= |p.kids|
    requires forall j :: 0 <= j < |p'.kids| ==> p'.kids[j] == p.kids[from + j] && (Fresh(p', j) ==> Fresh(p, from + j))
    requires forall c :: c in cs ==> Seps(c) <= Seps(p.chain)
    ensures Unseen(p', seen + cs)
  {
    hide Seps;
  }

  lemma RightSeps(p: Parent, m: nat, count: nat, newId: NodeId, version: nat)
    requires CutAt(p, m, count) && WellFormed(p.chain) && KidsOk(p)
    ensures var r := RightHalf(p, m, count, newId, version);
            && (forall s :: s in Seps(r.chain) <==> s in Seps(p.chain) && SepOf(p.kids[m]).key < s.key)
            && HighOf(r.chain) == HighOf(p.chain) && LowOf(r.chain) == p.kids[m].low && LowIdOf(r.chain) == p.kids[m].id && r.chain.Base?
  {
    CutSeps(p, m, count);
    hide KidsOk, WellFormed;
  }

  lemma RightKid(p: Parent, m: nat, count: nat, newId: NodeId, version: nat, n: nat)
    requires CutAt(p, m, count) && WellFormed(p.chain) && KidsOk(p) && m <= n < |p.kids|
    ensures var r := RightHalf(p, m, count, newId, version); n - m < |r.kids| && KidOk(r, n - m) && (Fresh(r, n - m) ==> Fresh(p, n))
  {
    var r := RightHalf(p, m, count, newId, version);
    RightSeps(p, m, count, newId, version);
    KidsOkAt(p, n);
    NextIs(p, n);
    NextIs(r, n - m);
    KidAfter(p, m, n);
    hide Seps, LowOf, HighOf, LowIdOf, NextOf, KidOk, KidsOk, RightHalf, CutAt;
    LeftIs(p, m, count, newId, version);
    if n == m {
      RightFirst(p, m, r);
    } else {
      KidElsewhere(p, n, r, n - m);
    }
  }

  lemma KidAfter(p: Parent, m: nat, n: nat)
    requires Framed(p) && 0 < m <= n < |p.kids|
    ensures forall k :: Inside(p, n, k) || (n > m && k == SepOf(p.kids[n]).key) ==> SepOf(p.kids[m]).key < k
  {
    OrderedAt(p, 0, m);
    OrderedAt(p, 0, n);
    if m < n { OrderedAt(p, m, n); }
    hide Framed, SepOf, NextOf;
  }

  /** A child that comes first has nothing on its left to be compared with. */
  lemma RightFirst(p: Parent, m: nat, p': Parent)
    requires KidOk(p, m) && 0 < |p'.kids| && p'.kids[0] == p.kids[m] && SameBound(NextOf(p', 0), NextOf(p, m))
    requires forall s: Sep :: Inside(p, m, s.key) ==> (s in Seps(p'.chain) <==> s in Seps(p.chain))
    ensures KidOk(p', 0)
  {
    hide Seps, NextOf;
    assert p.kids[m].top.MergeTop? && Has(p'.chain, p.kids[m].top.sep.key) ==> Has(p.chain, p.kids[m].top.sep.key);
  }

  lemma RightStep(p: Parent, m: nat, count: nat, newId: NodeId, version: nat, lows: map<NodeId, Low>, seen: set<Inner>, cs: set<Inner>)
    requires ChainOk(p.chain, lows) && KidsOk(p) && KidsNamed(p.kids, lows) && Unseen(p, seen) && CutAt(p, m, count)
    requires forall c :: c in cs ==> Seps(c) <= Seps(p.chain)
    ensures NewParent(RightHalf(p, m, count, newId, version), lows, seen + cs)
  {
    var r := RightHalf(p, m, count, newId, version);
    RightSeps(p, m, count, newId, version);
    TreeRouting.SiblingFormed(TreeRouting.InnerPending(0, p.chain, |p.chain.items| - count), lows);
    assert ChainOk(r.chain, lows);
    LeftIs(p, m, count, newId, version);
    hide Seps, LowOf, HighOf, LowIdOf, KidOk, Exact, Named, Listed, RightHalf, CutAt;
    assert Framed(r);
    hide Framed;
    forall n | 0 <= n < |r.kids|
      ensures KidOk(r, n) && r.kids[n] == p.kids[m + n] && (Fresh(r, n) ==> Fresh(p, m + n))
    {
      RightKid(p, m, count, newId, version, m + n);
    }
    UnseenPart(p, r, m, seen, cs);
  }

  lemma JoinedFacts(p: Parent, q: Parent, version: nat, lows: map<NodeId, Low>)
    requires ChainOk(p.chain, lows) && ChainOk(q.chain, lows) && q.chain.Base?
    requires HighOf(p.chain).HighAt? && HighOf(p.chain).next == q.id && LowOf(q.chain) == LowAt(HighOf(p.chain).key)
    ensures var c, k := Joined(p, q, version).chain, HighOf(p.chain).key;
            && ChainOk(c, lows) && LowOf(c) == LowOf(p.chain) && HighOf(c) == HighOf(q.chain) && LowIdOf(c) == LowIdOf(p.chain)
            && (forall s :: s in Seps(c) && s.key < k <==> s in Seps(p.chain)) && (forall s :: s in Seps(c) && k < s.key <==> s in Seps(q.chain))
            && (forall s :: s in Seps(c) && s.key == k <==> s == Sep(k, LowIdOf(q.chain)))
  {
    var c := Joined(p, q, version).chain;
    TreeRouting.MergeFormed(p.chain, HighOf(p.chain).key, q.id, q.chain, lows);
    forall s
      ensures s in Seps(c) && s.key < HighOf(p.chain).key <==> s in Seps(p.chain)
      ensures s in Seps(c) && HighOf(p.chain).key < s.key <==> s in Seps(q.chain)
      ensures s in Seps(c) && s.key == HighOf(p.chain).key <==> s == Sep(HighOf(p.chain).key, LowIdOf(q.chain))
    {
      if s in Seps(c) { MergeSides(c, s); }
      if s in Seps(p.chain) { SepsInRange(p.chain, s); }
      if s in Seps(q.chain) { SepsInRange(q.chain, s); }
    }
  }

  lemma JoinedFramed(p: Parent, q: Parent, version: nat)
    requires Framed(p) && Framed(q) && HighOf(p.chain).HighAt? && LowOf(q.chain) == LowAt(HighOf(p.chain).key)
    requires var c := Joined(p, q, version).chain; LowOf(c) == LowOf(p.chain) && HighOf(c) == HighOf(q.chain) && LowIdOf(c) == LowIdOf(p.chain)
    ensures Framed(Joined(p, q, version))
  {
    hide LowOf, HighOf, LowIdOf;
    var p', n, k := Joined(p, q, version), |p.kids|, HighOf(p.chain).key;
    forall b | 0 <= b < |q.kids|
      ensures q.kids[b].low.LowAt? && k <= q.kids[b].low.key
    {
      if b > 0 { assert StrictlyAbove(q.kids[b].low.key, q.kids[0].low); }
    }
    assert BelowHigh(k, HighOf(q.chain)) by { assert q.kids[0].low == LowAt(k); }
    forall a, b | 0 <= a < b < |p'.kids|
      ensures p'.kids[b].low.LowAt? && StrictlyAbove(p'.kids[b].low.key, p'.kids[a].low)
    {
      if b < n {
        assert StrictlyAbove(p.kids[b].low.key, p.kids[a].low);
      } else if a >= n {
        assert StrictlyAbove(q.kids[b - n].low.key, q.kids[a - n].low);
      }
    }
    forall j | 0 <= j < |p'.kids| && p'.kids[j].low.LowAt?
      ensures BelowHigh(p'.kids[j].low.key, HighOf(p'.chain))
    {
      if j < n { assert p.kids[j].low.LowAt?; } else { assert q.kids[j - n].low.LowAt?; }
    }
  }

  /** The facts about two parents and their join that the children's conditions need. */
  ghost predicate Joins(p: Parent, q: Parent, p': Parent, k: int)
  {
    && HighOf(p.chain).HighAt? && HighOf(p.chain).key == k && LowOf(q.chain) == LowAt(k) && HighOf(p'.chain) == HighOf(q.chain)
    && p'.kids == p.kids + q.kids && Framed(p')
    && (forall s :: s in Seps(p'.chain) && s.key < k <==> s in Seps(p.chain)) && (forall s :: s in Seps(p'.chain) && k < s.key <==> s in Seps(q.chain))
    && (forall s :: s in Seps(p'.chain) && s.key == k <==> s == Sep(k, LowIdOf(q.chain)))
  }

  lemma JoinedLeftKid(p: Parent, q: Parent, p': Parent, k: int, n: nat)
    requires KidsOk(p) && KidsOk(q) && Joins(p, q, p', k) && n < |p.kids|
    ensures KidOk(p', n) && (Fresh(p', n) ==> Fresh(p, n))
  {
    KidsOkAt(p, n);
    KidBefore(p', n, |p.kids|);
    NextIs(p, n);
    NextIs(p', n);
    hide Seps, LowOf, HighOf, LowIdOf, KidOk, NextOf, Fresh;
    forall x | Inside(p, n, x)
      ensures x < k
    {
    }
    hide KidsOk, Inside;
    KidElsewhere(p, n, p', n);
  }

  lemma JoinedRightKid(p: Parent, q: Parent, p': Parent, k: int, n: nat)
    requires KidsOk(p) && KidsOk(q) && Joins(p, q, p', k) && n < |q.kids|
    ensures KidOk(p', |p.kids| + n) && (Fresh(p', |p.kids| + n) ==> Fresh(q, n))
  {
    var m := |p.kids|;
    KidsOkAt(q, n);
    KidAfter(p', m, m + n);
    NextIs(q, n);
    NextIs(p', m + n);
    hide Seps, LowOf, HighOf, LowIdOf, KidOk, NextOf;
    forall x | Inside(q, n, x)
      ensures k < x
    {
      assert Inside(p', m + n, x);
    }
    if n > 0 {
      hide KidsOk, Inside;
      KidElsewhere(q, n, p', m + n);
    } else {
      hide Inside;
      JoinedMiddle(q, p', m, k);
    }
  }

  /** The first child on the right is listed where the two parents meet. */
  lemma JoinedMiddle(q: Parent, p': Parent, m: nat, k: int)
    requires KidOk(q, 0) && 0 < m < |p'.kids| && p'.kids[m] == q.kids[0] && SameBound(NextOf(p', m), NextOf(q, 0)) && q.kids[0].low == LowAt(k)
    requires forall s: Sep :: Inside(q, 0, s.key) ==> (s in Seps(p'.chain) <==> s in Seps(q.chain))
    requires forall s :: s in Seps(p'.chain) && s.key == k <==> s == Sep(k, q.kids[0].id)
    ensures KidOk(p', m) && !Fresh(p', m)
  {
    hide Seps, NextOf;
    assert SepOf(p'.kids[m]) == Sep(k, q.kids[0].id);
    assert q.kids[0].top.MergeTop? && Has(p'.chain, q.kids[0].top.sep.key) ==> Has(q.chain, q.kids[0].top.sep.key);
  }

  lemma JoinStep(p: Parent, q: Parent, version: nat, lows: map<NodeId, Low>, seen: set<Inner>)
    requires ChainOk(p.chain, lows) && KidsOk(p) && KidsNamed(p.kids, lows) && Unseen(p, seen)
    requires ChainOk(q.chain, lows) && KidsOk(q) && KidsNamed(q.kids, lows) && Unseen(q, seen)
    requires q.chain.Base? && HighOf(p.chain).HighAt? && HighOf(p.chain).next == q.id && LowOf(q.chain) == LowAt(HighOf(p.chain).key)
    ensures var p' := Joined(p, q, version);
            NewParent(p', lows, seen + {p'.chain}) && LowOf(p'.chain) == LowOf(p.chain) && HighOf(p'.chain) == HighOf(q.chain)
  {
    var p', k := Joined(p, q, version), HighOf(p.chain).key;
    JoinedFacts(p, q, version, lows);
    JoinedFramed(p, q, version);
    assert p'.kids == p.kids + q.kids;
    hide Seps, LowOf, HighOf, LowIdOf, KidOk, ChainOk, Listed, Joined, Framed;
    assert Joins(p, q, p', k);
    forall n | 0 <= n < |p'.kids|
      ensures KidOk(p', n)
      ensures Fresh(p', n) ==> !Listed(seen + {p'.chain}, SepOf(p'.kids[n]))
    {
      if n < |p.kids| {
        JoinedLeftKid(p, q, p', k, n);
      } else {
        JoinedRightKid(p, q, p', k, n - |p.kids|);
      }
      ListedMore(seen, p'.chain, SepOf(p'.kids[n]));
    }
  }
}
