/** Index-term deltas and consolidation: what a parent looks like after them. */
module ParentTerms {
  import opened BwTypes
  import opened InnerChain
  import opened InnerSearch
  import opened ParentLevel
  import opened ParentKids
  import TreeRouting

  /** No child begins inside another. */
  lemma BeginsOutside(p: Parent, n: nat, m: nat)
    requires Framed(p) && n < |p.kids| && 0 < m < |p.kids|
    ensures !Inside(p, n, SepOf(p.kids[m]).key)
  {
    hide LowOf, HighOf, LowIdOf;
    if m > n + 1 { assert StrictlyAbove(p.kids[m].low.key, p.kids[n + 1].low); }
  }

  lemma OneKidPerKey(p: Parent, n: nat, m: nat)
    requires Framed(p) && n < |p.kids| && 0 < m < |p.kids|
    ensures n > 0 && SepOf(p.kids[n]).key == SepOf(p.kids[m]).key ==> n == m
  {
    hide LowOf, HighOf, LowIdOf;
    if n > m { assert StrictlyAbove(p.kids[n].low.key, p.kids[m].low); }
    if n < m { assert StrictlyAbove(p.kids[m].low.key, p.kids[n].low); }
  }

  lemma SepAbove(p: Parent, m: nat)
    requires Framed(p) && 0 < m < |p.kids|
    ensures p.kids[m].low == LowAt(SepOf(p.kids[m]).key) && StrictlyAbove(SepOf(p.kids[m]).key, LowOf(p.chain))
    ensures BelowHigh(SepOf(p.kids[m]).key, HighOf(p.chain)) && BelowHigh(SepOf(p.kids[m]).key, NextOf(p, m))
  {
    hide LowOf, HighOf, LowIdOf;
    assert StrictlyAbove(p.kids[m].low.key, p.kids[0].low);
  }

  /** The high key pair passed on is that of the next larger separator. */
  lemma SuccessorAt(p: Parent, f: nat, k: int, b: High)
    requires KidsOk(p) && f < |p.kids| && AboveLow(k, p.kids[f].low) && BelowHigh(k, NextOf(p, f))
    requires forall s :: s in Seps(p.chain) && k < s.key ==> !Inside(p, f, s.key)
    requires (f + 1 < |p.kids| ==> !Fresh(p, f + 1)) && SameBound(b, NextOf(p, f))
    ensures SuccessorIs(p.chain, k, b)
  {
    hide Seps, LowOf, HighOf, LowIdOf, KidOk;
    if f + 1 < |p.kids| { assert Has(p.chain, SepOf(p.kids[f + 1]).key); }
  }

  lemma PredecessorAt(p: Parent, f: nat, k: int, prevKey: int, lows: map<NodeId, Low>)
    requires KidsOk(p) && KidsNamed(p.kids, lows) && f < |p.kids| && Inside(p, f, k) && !Fresh(p, f) && WellFormed(p.chain)
    requires forall s :: s in Seps(p.chain) && s.key < k ==> !Inside(p, f, s.key)
    requires p.kids[f].low.LowAt? ==> p.kids[f].low.key == prevKey
    ensures PredecessorIs(p.chain, k, Sep(prevKey, p.kids[f].id))
    ensures ChildIs(p, f, prevKey, lows)
  {
    KidsOkAt(p, f);
    forall s | s in Seps(p.chain)
      ensures StrictlyAbove(s.key, LowOf(p.chain))
    {
      SepsInRange(p.chain, s);
    }
    if f > 0 { SepAbove(p, f); }
    hide Seps, LowOf, HighOf, LowIdOf, KidOk, WellFormed;
    assert Names(lows, p.kids[f].id, p.kids[f].low) && Names(lows, p.kids[0].id, p.kids[0].low);
  }

  ghost predicate ChildIs(p: Parent, f: nat, prevKey: int, lows: map<NodeId, Low>)
    requires f < |p.kids|
  {
    ChildNamed(p.chain, p.kids[f].id, lows) && (lows[p.kids[f].id].LowAt? ==> lows[p.kids[f].id].key == prevKey)
  }

  lemma MarkedIs(p: Parent, j: nat, lows: map<NodeId, Low>)
    requires Framed(p) && KidsNamed(p.kids, lows) && j < |p.kids|
    ensures Marked(p.kids, p.kids[j].id) == p.kids[j := p.kids[j].(finished := true)]
  {
    hide LowOf, HighOf, LowIdOf;
    forall m | 0 <= m < |p.kids| && m != j
      ensures p.kids[m].id != p.kids[j].id
    {
      assert Names(lows, p.kids[m].id, p.kids[m].low) && Names(lows, p.kids[j].id, p.kids[j].low);
      if m < j {
        assert StrictlyAbove(p.kids[j].low.key, p.kids[m].low);
      } else {
        assert StrictlyAbove(p.kids[m].low.key, p.kids[j].low);
      }
    }
  }

  /** A post for a split lists the sibling that nothing listed before. */
  lemma PendingInsert(p: Parent, j: nat, c: Inner)
    requires KidsOk(p) && Pending(p, j, c) && c.Insert?
    ensures j + 1 < |p.kids| && Fresh(p, j + 1) && c.item == SepOf(p.kids[j + 1]) && SameBound(c.next, NextOf(p, j + 1))
    ensures c.child == p.chain && !Has(p.chain, c.item.key) && Located(BaseFor(p.chain, c.item.key), c.item.key, c.loc)
    ensures p.kids[j + 1].top.Plain?
  {
    KidsOkAt(p, j);
    hide Seps, LowOf, HighOf, LowIdOf, Located, BaseFor;
    if j + 1 < |p.kids| { KidsOkAt(p, j + 1); }
  }

  lemma InsertedChain(p: Parent, j: nat, c: Inner, lows: map<NodeId, Low>)
    requires ChainOk(p.chain, lows) && KidsOk(p) && KidsNamed(p.kids, lows) && Pending(p, j, c) && c.Insert?
    ensures ChainOk(c, lows) && LowOf(c) == LowOf(p.chain) && HighOf(c) == HighOf(p.chain) && LowIdOf(c) == LowIdOf(p.chain)
    ensures j + 1 < |p.kids| && Seps(c) == Seps(p.chain) + {SepOf(p.kids[j + 1])}
  {
    PendingInsert(p, j, c);
    SepAbove(p, j + 1);
    KidsOkAt(p, j + 1);
    if j + 2 < |p.kids| { KidsOkAt(p, j + 2); }
    hide Located, BaseFor, Pending, HighOf, LowIdOf, LowOf, Seps, WellFormed, Has;
    TreeRouting.InsertFormed(p.chain, c.item, c.next, c.loc, lows);
    SuccessorAt(p, j + 1, c.item.key, c.next);
    DataEnds(c);
  }

  lemma DataEnds(c: Inner)
    requires c.Insert? || c.Delete?
    ensures LowOf(c) == LowOf(c.child) && HighOf(c) == HighOf(c.child) && LowIdOf(c) == LowIdOf(c.child)
    ensures c.Insert? ==> Seps(c) == Seps(c.child) + {c.item}
    ensures c.Delete? ==> forall s :: s in Seps(c) <==> s in Seps(c.child) && s.key != c.item.key
  {
  }

  /** A post for a merge removes what the merge left listed. */
  lemma PendingDelete(p: Parent, j: nat, c: Inner)
    requires KidsOk(p) && Pending(p, j, c) && c.Delete?
    ensures Inside(p, j, c.item.key) && SameBound(c.next, NextOf(p, j)) && !Fresh(p, j) && (j + 1 < |p.kids| ==> !Fresh(p, j + 1))
    ensures c.child == p.chain && Has(p.chain, c.item.key) && Located(BaseFor(p.chain, c.item.key), c.item.key, c.loc)
    ensures c.prev.id == p.kids[j].id && (p.kids[j].low.LowAt? ==> p.kids[j].low.key == c.prev.key)
    ensures forall s :: s in Seps(p.chain) && s.key != c.item.key ==> !Inside(p, j, s.key)
    ensures p.kids[j].top.MergeTop? && p.kids[j].top.sep.key == c.item.key
  {
    KidsOkAt(p, j);
    hide Seps, LowOf, HighOf, LowIdOf, Located, BaseFor;
    if j + 1 < |p.kids| { KidsOkAt(p, j + 1); }
  }

  lemma DeletedChain(p: Parent, j: nat, c: Inner, lows: map<NodeId, Low>)
    requires ChainOk(p.chain, lows) && KidsOk(p) && KidsNamed(p.kids, lows) && Pending(p, j, c) && c.Delete?
    ensures ChainOk(c, lows) && LowOf(c) == LowOf(p.chain) && HighOf(c) == HighOf(p.chain) && LowIdOf(c) == LowIdOf(p.chain)
    ensures forall s :: s in Seps(c) <==> s in Seps(p.chain) && s.key != c.item.key
  {
    PendingDelete(p, j, c);
    hide Located, BaseFor, Pending, HighOf, LowIdOf, LowOf, Seps, WellFormed, Has;
    PredecessorAt(p, j, c.item.key, c.prev.key, lows);
    SuccessorAt(p, j, c.item.key, c.next);
    TreeRouting.DeleteFormed(p.chain, c.item, c.prev, c.next, c.loc, lows);
    DataEnds(c);
  }

  /** The parent after the installation of an index-term delta for child `j`. */
  function Posted(p: Parent, j: nat, c: Inner, version: nat): Parent
    requires j < |p.kids|
  {
    p.(chain := c, kids := p.kids[j := p.kids[j].(finished := true)], version := version)
  }

  /** A separator that begins a child and lies inside no other may be added. */
  lemma AddedSep(p: Parent, p': Parent, n: nat, s: Sep)
    requires KidOk(p, n) && n < |p'.kids| && NextOf(p', n) == NextOf(p, n)
    requires p'.kids[n] == p.kids[n] || (p.kids[n].top.SplitTop? && p'.kids[n] == p.kids[n].(finished := true))
    requires Seps(p'.chain) == Seps(p.chain) + {s} && !Inside(p, n, s.key)
    requires n > 0 && s.key == SepOf(p.kids[n]).key ==> s == SepOf(p.kids[n])
    requires n > 0 && Fresh(p, n) && s != SepOf(p.kids[n]) ==> p'.kids[n - 1] == p.kids[n - 1]
    ensures KidOk(p', n)
  {
    hide Seps, NextOf;
    assert p.kids[n].top.MergeTop? && Has(p'.chain, p.kids[n].top.sep.key) ==> Has(p.chain, p.kids[n].top.sep.key);
    assert Fresh(p', n) ==> Fresh(p, n) && s != SepOf(p.kids[n]);
  }

  lemma InsertedKids(p: Parent, j: nat, c: Inner, version: nat, n: nat)
    requires KidsOk(p) && Pending(p, j, c) && c.Insert? && j + 1 < |p.kids| && n < |p.kids|
    requires HighOf(c) == HighOf(p.chain) && Seps(c) == Seps(p.chain) + {SepOf(p.kids[j + 1])}
    ensures KidOk(Posted(p, j, c, version), n)
  {
    PendingInsert(p, j, c);
    PendingNotQuiet(p, j, c);
    KidsOkAt(p, n);
    OneKidPerKey(p, n, j + 1);
    BeginsOutside(p, n, j + 1);
    hide Seps, LowOf, HighOf, LowIdOf, Framed, KidsOk, KidOk, Located, BaseFor, Has, Fresh;
    assert p.kids[j].top.SplitTop?;
    hide Pending;
    var p' := Posted(p, j, c, version);
    NextIs(p', n);
    NextIs(p, n);
    hide NextOf;
    AddedSep(p, p', n, SepOf(p.kids[j + 1]));
  }

  lemma DeletedKids(p: Parent, j: nat, c: Inner, version: nat, n: nat)
    requires KidsOk(p) && Pending(p, j, c) && c.Delete? && n < |p.kids|
    requires HighOf(c) == HighOf(p.chain) && forall s :: s in Seps(c) <==> s in Seps(p.chain) && s.key != c.item.key
    ensures KidOk(Posted(p, j, c, version), n) && (Fresh(Posted(p, j, c, version), n) ==> Fresh(p, n))
  {
    PendingDelete(p, j, c);
    KidsOkAt(p, n);
    if n > 0 { BeginsOutside(p, j, n); }
    hide Seps, LowOf, HighOf, LowIdOf, Pending, Located, BaseFor;
    var p' := Posted(p, j, c, version);
    NextIs(p', n);
    NextIs(p, n);
    hide NextOf;
    assert Fresh(p', n) ==> Fresh(p, n);
  }

  ghost predicate SameEnds(c: Inner, c': Inner)
  {
    LowOf(c') == LowOf(c) && HighOf(c') == HighOf(c)
  }

  /** What installing a chain on a parent must lead to. */
  ghost predicate InstallOk(p: Parent, p': Parent, lows: map<NodeId, Low>, seen: set<Inner>)
  {
    && p'.id == p.id && ChainOk(p'.chain, lows) && SameEnds(p.chain, p'.chain)
    && KidsOk(p') && KidsNamed(p'.kids, lows) && Unseen(p', seen + {p'.chain})
  }

  lemma ListedMore(seen: set<Inner>, c: Inner, s: Sep)
    ensures Listed(seen + {c}, s) <==> Listed(seen, s) || s in Seps(c)
  {
    hide Seps;
    if Listed(seen, s) {
      var d :| d in seen && s in Seps(d);
      assert d in seen + {c};
    }
    if s in Seps(c) { assert c in seen + {c}; }
  }

  lemma UnseenMore(p: Parent, p': Parent, seen: set<Inner>)
    requires Unseen(p, seen) && |p'.kids| == |p.kids|
    requires forall j :: 0 <= j < |p.kids| ==> SepOf(p'.kids[j]) == SepOf(p.kids[j]) && (Fresh(p', j) ==> Fresh(p, j))
    ensures Unseen(p', seen + {p'.chain})
  {
    hide Seps, Listed;
    forall j | 0 <= j < |p'.kids| && Fresh(p', j)
      ensures !Listed(seen + {p'.chain}, SepOf(p'.kids[j]))
    {
      ListedMore(seen, p'.chain, SepOf(p'.kids[j]));
    }
  }

  lemma CommitStep(p: Parent, j: nat, c: Inner, version: nat, lows: map<NodeId, Low>, seen: set<Inner>)
    requires ChainOk(p.chain, lows) && KidsOk(p) && KidsNamed(p.kids, lows) && Unseen(p, seen) && Pending(p, j, c)
    ensures InstallOk(p, Posted(p, j, c, version), lows, seen)
  {
    var p' := Posted(p, j, c, version);
    if c.Insert? {
      InsertedChain(p, j, c, lows);
    } else {
      DeletedChain(p, j, c, lows);
    }
    hide Seps, LowOf, HighOf, LowIdOf, ChainOk, Pending, Listed;
    assert Framed(p');
    forall n | 0 <= n < |p.kids|
      ensures KidOk(p', n) && (Fresh(p', n) ==> Fresh(p, n))
    {
      if c.Insert? {
        InsertedKids(p, j, c, version, n);
      } else {
        DeletedKids(p, j, c, version, n);
      }
    }
    hide KidOk;
    UnseenMore(p, p', seen);
  }

  /** Children over a chain with the same separators and ends are as they should be. */
  lemma SameKid(p: Parent, p': Parent, n: nat)
    requires KidOk(p, n) && p'.kids == p.kids && Seps(p'.chain) == Seps(p.chain) && HighOf(p'.chain) == HighOf(p.chain)
    ensures KidOk(p', n) && (Fresh(p', n) <==> Fresh(p, n))
  {
    hide Seps, HighOf;
  }

  lemma ConsolidateStep(p: Parent, base: Inner, version: nat, lows: map<NodeId, Low>, seen: set<Inner>)
    requires ChainOk(p.chain, lows) && KidsOk(p) && KidsNamed(p.kids, lows) && Unseen(p, seen)
    requires base.Base? && base.low == LowOf(p.chain) && base.high == HighOf(p.chain)
    requires WellFormed(base) && Seps(base) == Seps(p.chain) && LowIdOf(base) == LowIdOf(p.chain)
    ensures InstallOk(p, p.(chain := base, version := version), lows, seen)
  {
    var p' := p.(chain := base, version := version);
    assert LowOf(base) == LowOf(p.chain) && HighOf(base) == HighOf(p.chain);
    TreeRouting.BaseNamed(p.chain, base, lows);
    hide Seps, LowOf, HighOf, LowIdOf, KidOk, Listed, WellFormed, Named;
    forall n | 0 <= n < |p.kids|
      ensures KidOk(p', n) && (Fresh(p', n) ==> Fresh(p, n))
    {
      KidsOkAt(p, n);
      SameKid(p, p', n);
    }
    UnseenMore(p, p', seen);
  }
}
