/** Steps on the children of a parent, which leave the parent alone. */
module ParentKids {
  import opened BwTypes
  import opened InnerChain
  import opened InnerSearch
  import opened ParentLevel
  import TreeRouting

  /** A child that keeps its neighbours stays as it should be when it moves to another place. */
  lemma KidMoves(p: Parent, m: nat, p': Parent, n: nat)
    requires KidOk(p, m) && n < |p'.kids| && p'.chain == p.chain && p'.kids[n] == p.kids[m] && NextOf(p', n) == NextOf(p, m)
    requires (n == 0 <==> m == 0) && (m > 0 && Fresh(p, m) ==> p'.kids[n - 1] == p.kids[m - 1])
    ensures KidOk(p', n)
  {
    hide Seps, NextOf;
  }

  /** A post stays pending while its child is as it was. */
  lemma PostMoves(p: Parent, m: nat, p': Parent, n: nat, x: Post)
    requires p'.chain == p.chain && m < |p.kids| && n < |p'.kids| && p'.kids[n] == p.kids[m]
    requires p.kids[m].id == x.kid && Pending(p, m, x.chain)
    ensures PostOk(p', x)
  {
    hide Located, Has, BaseFor, HighOf, Term;
    assert Pending(p', n, x.chain);
  }

  lemma KidsOkAt(p: Parent, j: nat)
    requires KidsOk(p) && j < |p.kids|
    ensures KidOk(p, j)
  {
  }

  lemma NextIs(p: Parent, j: nat)
    ensures NextOf(p, j) == if j + 1 < |p.kids| then HighAt(SepOf(p.kids[j + 1]).key, p.kids[j + 1].id) else HighOf(p.chain)
  {
  }

  lemma KidNext(p: Parent, j: nat)
    requires Framed(p) && j < |p.kids|
    ensures NextOf(p, j) == if j + 1 < |p.kids| then HighAt(SepOf(p.kids[j + 1]).key, p.kids[j + 1].id) else HighOf(p.chain)
    ensures j + 1 < |p.kids| ==> LowAt(SepOf(p.kids[j + 1]).key) == p.kids[j + 1].low && StrictlyAbove(SepOf(p.kids[j + 1]).key, p.kids[j].low)
  {
  }

  ghost predicate KidStepOk(p: Parent, p': Parent, lows': map<NodeId, Low>, seen: set<Inner>, posts: set<Post>)
  {
    p'.id == p.id && p'.version == p.version && p'.chain == p.chain && KidsOk(p') && KidsNamed(p'.kids, lows') && Unseen(p', seen) && PostsOk(p', posts)
  }

  /** A data delta, a consolidation, or a remove delta on a child. */
  lemma Topped(p: Parent, j: nat, top: Top, lows: map<NodeId, Low>, seen: set<Inner>, posts: set<Post>)
    requires KidsOk(p) && KidsNamed(p.kids, lows) && Unseen(p, seen) && PostsOk(p, posts)
    requires Quiet(p, j) && (top.Plain? || top.RemoveTop?)
    ensures KidStepOk(p, WithTop(p, j, top, false), lows, seen, posts)
  {
    hide Seps, LowOf, HighOf, LowIdOf, Pending, TopOk, FreshOk, SepsOk, Listed, Inside;
    var p' := WithTop(p, j, top, false);
    assert Framed(p');
    forall n | 0 <= n < |p'.kids|
      ensures KidOk(p', n)
    {
      KidsOkAt(p, n);
      if n == j {
        ToppedKid(p, j, p');
      } else {
        KidMoves(p, n, p', n);
      }
    }
    forall x | x in posts && x.version == p'.version
      ensures PostOk(p', x)
    {
      var m :| 0 <= m < |p.kids| && p.kids[m].id == x.kid && Pending(p, m, x.chain);
      PendingNotQuiet(p, m, x.chain);
      PostMoves(p, m, p', m, x);
    }
  }

  lemma ToppedKid(p: Parent, j: nat, p': Parent)
    requires KidOk(p, j) && Quiet(p, j) && p'.chain == p.chain && |p'.kids| == |p.kids|
    requires p'.kids[j].id == p.kids[j].id && p'.kids[j].low == p.kids[j].low && (p'.kids[j].top.Plain? || p'.kids[j].top.RemoveTop?)
    requires NextOf(p', j) == NextOf(p, j)
    ensures KidOk(p', j)
  {
    hide Seps, NextOf;
  }

  /** Once finished, a split has its sibling listed, and a merge its separator gone. */
  lemma FinishedTop(p: Parent, j: nat, lows: map<NodeId, Low>, seen: set<Inner>, posts: set<Post>)
    requires KidsOk(p) && KidsNamed(p.kids, lows) && Unseen(p, seen) && PostsOk(p, posts)
    requires j < |p.kids| && Settled(p, j)
    ensures KidStepOk(p, WithTop(p, j, p.kids[j].top, true), lows, seen, posts)
  {
    hide Seps, LowOf, HighOf, LowIdOf, Pending, TopOk, FreshOk, SepsOk, Listed, Inside;
    var p' := WithTop(p, j, p.kids[j].top, true);
    assert Framed(p');
    forall n | 0 <= n < |p'.kids|
      ensures KidOk(p', n)
    {
      KidsOkAt(p, n);
      if n == j {
        FinishedKid(p, j, p');
      } else {
        KidMoves(p, n, p', n);
      }
    }
    forall x | x in posts && x.version == p'.version
      ensures PostOk(p', x)
    {
      var m :| 0 <= m < |p.kids| && p.kids[m].id == x.kid && Pending(p, m, x.chain);
      SettledNotPending(p, m, x.chain);
      PostMoves(p, m, p', m, x);
    }
  }

  ghost predicate Settled(p: Parent, j: nat)
    requires j < |p.kids|
  {
    && (j + 1 < |p.kids| ==> !Fresh(p, j + 1)) && !Fresh(p, j)
    && (p.kids[j].top.MergeTop? ==> !Has(p.chain, p.kids[j].top.sep.key))
  }

  lemma SettledNotPending(p: Parent, j: nat, c: Inner)
    requires KidsOk(p) && Pending(p, j, c)
    ensures !Settled(p, j)
  {
    PendingNotQuiet(p, j, c);
    KidsOkAt(p, j);
    hide Seps, HighOf, LowOf, LowIdOf, Located;
    if j + 1 < |p.kids| { KidsOkAt(p, j + 1); }
  }

  lemma FinishedKid(p: Parent, j: nat, p': Parent)
    requires KidOk(p, j) && Settled(p, j) && p'.chain == p.chain && |p'.kids| == |p.kids|
    requires p'.kids[j] == p.kids[j].(finished := true) && NextOf(p', j) == NextOf(p, j)
    ensures KidOk(p', j)
  {
    hide Seps, NextOf;
  }

  lemma SplitStep(p: Parent, j: nat, s: Sep, lows: map<NodeId, Low>, lows': map<NodeId, Low>, seen: set<Inner>, posts: set<Post>)
    requires KidsOk(p) && KidsNamed(p.kids, lows) && Unseen(p, seen) && PostsOk(p, posts)
    requires Quiet(p, j) && Inside(p, j, s.key)
    requires !Listed(seen, s) && TreeRouting.Extends(lows, lows') && Names(lows', s.id, LowAt(s.key))
    ensures KidStepOk(p, KidSplit(p, j, s), lows', seen, posts)
  {
    hide Seps, LowOf, HighOf, LowIdOf, Pending, TopOk, FreshOk, SepsOk, Listed, Inside;
    var p' := KidSplit(p, j, s);
    SplitFramed(p, j, s);
    forall n | 0 <= n < |p'.kids|
      ensures KidOk(p', n)
    {
      SplitKids(p, j, s, n);
    }
    forall n | 0 <= n < |p'.kids| && Fresh(p', n)
      ensures !Listed(seen, SepOf(p'.kids[n]))
    {
      if n < j { assert Fresh(p, n); } else if n > j + 1 { assert Fresh(p, n - 1); }
    }
    forall x | x in posts && x.version == p'.version
      ensures PostOk(p', x)
    {
      var m :| 0 <= m < |p.kids| && p.kids[m].id == x.kid && Pending(p, m, x.chain);
      PendingNotQuiet(p, m, x.chain);
      PostMoves(p, m, p', if m < j then m else m + 1, x);
    }
  }

  lemma SplitFramed(p: Parent, j: nat, s: Sep)
    requires Framed(p) && j < |p.kids| && Inside(p, j, s.key)
    ensures Framed(KidSplit(p, j, s))
  {
    hide LowOf, HighOf, LowIdOf;
    var kids' := KidSplit(p, j, s).kids;
    forall a, b | 0 <= a < b < |kids'|
      ensures kids'[b].low.LowAt? && StrictlyAbove(kids'[b].low.key, kids'[a].low)
    {
      var a0, b0 := if a <= j then a else a - 1, if b <= j then b else b - 1;
      assert a0 < b0 ==> p.kids[b0].low.LowAt? && StrictlyAbove(p.kids[b0].low.key, p.kids[a0].low);
    }
  }

  lemma SplitKids(p: Parent, j: nat, s: Sep, n: nat)
    requires KidsOk(p) && Quiet(p, j) && Inside(p, j, s.key) && n <= |p.kids|
    ensures KidOk(KidSplit(p, j, s), n)
  {
    hide Seps, LowOf, HighOf, LowIdOf, TopOk, FreshOk, SepsOk, Inside;
    var p' := KidSplit(p, j, s);
    if n < j {
      KidsOkAt(p, n);
      KidMoves(p, n, p', n);
    } else if n > j + 1 {
      KidsOkAt(p, n - 1);
      KidMoves(p, n - 1, p', n);
    } else {
      KidsOkAt(p, j);
      if n == j { SplitLeft(p, j, s); } else { SplitRight(p, j, s); }
    }
  }

  lemma SplitLeft(p: Parent, j: nat, s: Sep)
    requires KidsOk(p) && Quiet(p, j) && Inside(p, j, s.key)
    ensures KidOk(KidSplit(p, j, s), j)
  {
    KidsOkAt(p, j);
    KidNext(p, j);
    hide Seps, LowOf, HighOf, LowIdOf, Framed, NextOf;
    var p' := KidSplit(p, j, s);
    NextIs(p', j);
    assert SepOf(p'.kids[j]) == SepOf(p.kids[j]);
  }

  lemma SplitRight(p: Parent, j: nat, s: Sep)
    requires KidsOk(p) && Quiet(p, j) && Inside(p, j, s.key)
    ensures KidOk(KidSplit(p, j, s), j + 1)
  {
    KidsOkAt(p, j);
    hide Seps, LowOf, HighOf, LowIdOf, Framed;
    var p' := KidSplit(p, j, s);
    assert NextOf(p', j + 1) == NextOf(p, j);
    assert SepOf(p'.kids[j + 1]) == s;
    forall x | x in Seps(p'.chain)
      ensures x.key != s.key && !Inside(p', j + 1, x.key)
    {
      assert !Inside(p, j, x.key);
    }
  }

  lemma MergeStep(p: Parent, j: nat, lows: map<NodeId, Low>, seen: set<Inner>, posts: set<Post>)
    requires KidsOk(p) && KidsNamed(p.kids, lows) && Unseen(p, seen) && PostsOk(p, posts)
    requires Quiet(p, j) && j + 1 < |p.kids| && p.kids[j + 1].top.RemoveTop?
    ensures KidStepOk(p, KidMerged(p, j), lows, seen, posts)
  {
    hide Seps, LowOf, HighOf, LowIdOf, Pending, TopOk, FreshOk, SepsOk, Listed, Inside;
    var p' := KidMerged(p, j);
    assert Framed(p');
    forall n | 0 <= n < |p'.kids|
      ensures KidOk(p', n)
    {
      MergeKids(p, j, n);
    }
    forall n | 0 <= n < |p'.kids| && Fresh(p', n)
      ensures !Listed(seen, SepOf(p'.kids[n]))
    {
      if n < j { assert Fresh(p, n); } else if n > j { assert Fresh(p, n + 1); }
    }
    forall x | x in posts && x.version == p'.version
      ensures PostOk(p', x)
    {
      var m :| 0 <= m < |p.kids| && p.kids[m].id == x.kid && Pending(p, m, x.chain);
      PendingNotQuiet(p, m, x.chain);
      PostMoves(p, m, p', if m < j then m else m - 1, x);
    }
    MergedNamed(p, j, lows);
    hide KidOk, Framed, Fresh, PostOk, KidMerged, Names;
  }

  lemma MergedNamed(p: Parent, j: nat, lows: map<NodeId, Low>)
    requires KidsNamed(p.kids, lows) && j + 1 < |p.kids|
    ensures var p' := KidMerged(p, j);
            p'.id == p.id && p'.version == p.version && p'.chain == p.chain && KidsNamed(p'.kids, lows)
  {
    hide Names;
  }

  lemma MergeKids(p: Parent, j: nat, n: nat)
    requires KidsOk(p) && Quiet(p, j) && j + 1 < |p.kids| && p.kids[j + 1].top.RemoveTop? && n < |p.kids| - 1
    ensures KidOk(KidMerged(p, j), n)
  {
    hide Seps, LowOf, HighOf, LowIdOf, TopOk, SepsOk, Inside;
    var p' := KidMerged(p, j);
    if n < j {
      KidsOkAt(p, n);
      hide FreshOk;
      KidMoves(p, n, p', n);
    } else if n > j {
      KidsOkAt(p, n + 1);
      KidMoves(p, n + 1, p', n);
    } else {
      MergedKid(p, j);
    }
  }

  lemma MergedKid(p: Parent, j: nat)
    requires KidsOk(p) && Quiet(p, j) && j + 1 < |p.kids| && p.kids[j + 1].top.RemoveTop?
    ensures KidOk(KidMerged(p, j), j)
  {
    KidsOkAt(p, j);
    KidsOkAt(p, j + 1);
    KidNext(p, j);
    KidNext(p, j + 1);
    hide Seps, LowOf, HighOf, LowIdOf, Framed, NextOf;
    var p' := KidMerged(p, j);
    NextIs(p', j);
    assert SepOf(p'.kids[j]) == SepOf(p.kids[j]);
    forall s | s in Seps(p.chain) && Inside(p', j, s.key)
      ensures s == SepOf(p.kids[j + 1])
    {
      assert !Inside(p, j, s.key) && !Inside(p, j + 1, s.key);
    }
  }
}
