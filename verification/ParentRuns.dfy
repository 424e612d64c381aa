/** The level of parents as a whole, in every run. */
module ParentRuns {
  import opened BwTypes
  import opened InnerChain
  import opened InnerSearch
  import opened ParentLevel
  import opened ParentKids
  import opened ParentTerms
  import opened ParentSplit
  import InnerAgree
  import TreeRouting

  // ------------------------------------------------------------------------------------
  // The whole level
  // ------------------------------------------------------------------------------------

  lemma ParentParts(p: Parent, lows: map<NodeId, Low>, seen: set<Inner>, posts: set<Post>, nextVersion: nat)
    ensures ParentOk(p, lows, seen, posts, nextVersion) <==>
      && ChainOk(p.chain, lows) && KidsOk(p) && KidsNamed(p.kids, lows) && Names(lows, p.id, LowOf(p.chain))
      && p.chain in seen && p.version < nextVersion && Unseen(p, seen) && PostsOk(p, posts)
  {
    hide ChainOk, KidsOk, KidsNamed, Names, Unseen, PostsOk, LowOf;
  }

  lemma InvAt(t: State, i: nat)
    requires Inv(t) && i < |t.parents|
    ensures ParentOk(t.parents[i], t.lows, t.seen, t.posts, t.nextVersion)
  {
    hide ParentOk;
  }

  lemma ChainOkGrows(c: Inner, lows: map<NodeId, Low>, lows': map<NodeId, Low>)
    requires ChainOk(c, lows) && TreeRouting.Extends(lows, lows')
    ensures ChainOk(c, lows')
  {
    hide WellFormed, Exact, Named;
    TreeRouting.NamedGrows(c, lows, lows');
  }

  /** What a step elsewhere in the level leaves alone. */
  ghost predicate Elsewhere(t: State, t': State, q: Parent, cs: set<Inner>)
  {
    && TreeRouting.Extends(t.lows, t'.lows) && t.nextVersion <= t'.nextVersion && t.seen <= t'.seen <= t.seen + cs
    && (forall c :: c in cs ==> WellFormed(c) && (Before(c, q.chain) || Before(q.chain, c)))
    && (forall x :: x in t'.posts && x.version == q.version ==> x in t.posts)
  }

  lemma OtherKeeps(t: State, t': State, q: Parent, cs: set<Inner>)
    requires ParentOk(q, t.lows, t.seen, t.posts, t.nextVersion) && Elsewhere(t, t', q, cs)
    ensures ParentOk(q, t'.lows, t'.seen, t'.posts, t'.nextVersion)
  {
    ChainOkGrows(q.chain, t.lows, t'.lows);
    hide ChainOk, KidOk, PostOk, LowOf, HighOf, LowIdOf, Seps, WellFormed;
    forall j | 0 <= j < |q.kids| && Fresh(q, j)
      ensures !Listed(t'.seen, SepOf(q.kids[j]))
    {
      SepAbove(q, j);
      forall c | c in t'.seen
        ensures SepOf(q.kids[j]) !in Seps(c)
      {
        if c !in t.seen && SepOf(q.kids[j]) in Seps(c) {
          SepsInRange(c, SepOf(q.kids[j]));
        }
      }
    }
  }

  lemma KidStepKeeps(t: State, i: nat, p': Parent, lows': map<NodeId, Low>, nextId': NodeId)
    requires Inv(t) && i < |t.parents| && KidStepOk(t.parents[i], p', lows', t.seen, t.posts)
    requires TreeRouting.Extends(t.lows, lows') && forall id :: id in lows' ==> id < nextId'
    ensures Inv(Replace(t, i, p').(lows := lows', nextId := nextId'))
  {
    var t' := Replace(t, i, p').(lows := lows', nextId := nextId');
    InvAt(t, i);
    ChainOkGrows(p'.chain, t.lows, lows');
    hide ChainOk, KidsOk, Unseen, PostsOk, LowOf, HighOf, Seps, KidsNamed;
    assert ParentOk(p', lows', t.seen, t.posts, t.nextVersion);
    hide ParentOk;
    forall a | 0 <= a < |t'.parents|
      ensures ParentOk(t'.parents[a], lows', t.seen, t.posts, t.nextVersion)
    {
      if a != i {
        InvAt(t, a);
        OtherKeeps(t, t', t.parents[a], {});
      }
    }
  }

  lemma FreeIsQuiet(t: State, i: nat, j: nat)
    requires Inv(t) && i < |t.parents| && Free(t.parents[i], j, t.seen)
    ensures Quiet(t.parents[i], j)
  {
    InvAt(t, i);
    hide ChainOk, KidsOk, Unseen, Free, Quiet;
    FreeQuiet(t.parents[i], j, t.seen);
  }

  lemma WorkKeeps(t: State, i: nat, j: nat, top: Top)
    requires Inv(t) && i < |t.parents| && Free(t.parents[i], j, t.seen) && (top.Plain? || top.RemoveTop?) && j < |t.parents[i].kids|
    ensures Inv(Replace(t, i, WithTop(t.parents[i], j, top, false)))
  {
    InvAt(t, i);
    FreeIsQuiet(t, i, j);
    hide *;
    var p := t.parents[i];
    ParentParts(p, t.lows, t.seen, t.posts, t.nextVersion);
    Topped(p, j, top, t.lows, t.seen, t.posts);
    KnownIds(t);
    TreeRouting.ExtendsItself(t.lows);
    KidStepKeeps(t, i, WithTop(p, j, top, false), t.lows, t.nextId);
    ReplaceIs(t, i, WithTop(p, j, top, false));
  }

  lemma ReplaceIs(t: State, i: nat, p: Parent)
    requires i < |t.parents|
    ensures Replace(t, i, p).(lows := t.lows, nextId := t.nextId) == Replace(t, i, p)
  {
  }

  lemma KnownIds(t: State)
    requires Inv(t)
    ensures forall id :: id in t.lows ==> id < t.nextId
  {
    hide ParentOk, AllApart, Seps;
  }

  lemma FinishKeeps(t: State, i: nat, j: nat)
    requires Inv(t) && i < |t.parents| && j < |t.parents[i].kids| && Settled(t.parents[i], j)
    ensures Inv(Replace(t, i, WithTop(t.parents[i], j, t.parents[i].kids[j].top, true)))
  {
    InvAt(t, i);
    hide *;
    var p := t.parents[i];
    ParentParts(p, t.lows, t.seen, t.posts, t.nextVersion);
    FinishedTop(p, j, t.lows, t.seen, t.posts);
    KnownIds(t);
    TreeRouting.ExtendsItself(t.lows);
    KidStepKeeps(t, i, WithTop(p, j, p.kids[j].top, true), t.lows, t.nextId);
    ReplaceIs(t, i, WithTop(p, j, p.kids[j].top, true));
  }

  /** A listed separator, a separator that is gone, and a key beyond the parent all mean finished. */
  lemma FinishSettles(p: Parent, j: nat, seen: set<Inner>)
    requires KidsOk(p) && Unseen(p, seen) && j < |p.kids|
    ensures p.kids[j].top.SplitTop? && Listed(seen, p.kids[j].top.sep) ==> Settled(p, j)
    ensures p.kids[j].top.SplitTop? && !BelowHigh(p.kids[j].top.sep.key, HighOf(p.chain)) ==> Settled(p, j)
    ensures p.kids[j].top.MergeTop? && !Has(p.chain, p.kids[j].top.sep.key) ==> Settled(p, j)
  {
    KidsOkAt(p, j);
    if j + 1 < |p.kids| { KidsOkAt(p, j + 1); SepAbove(p, j + 1); }
    hide LowOf, HighOf, LowIdOf, Seps, Listed, Framed, TopOk, SepsOk;
  }

  lemma SplitKidKeeps(t: State, step: Step)
    requires Inv(t) && step.SplitKid? && Enabled(t, step)
    ensures Inv(After(t, step))
  {
    var i, j, s := step.i, step.j, Sep(step.key, t.nextId);
    var p := t.parents[i];
    InvAt(t, i);
    FreeIsQuiet(t, i, j);
    assert Inside(p, j, s.key);
    hide *;
    ParentParts(p, t.lows, t.seen, t.posts, t.nextVersion);
    KnownIds(t);
    var lows' := t.lows[t.nextId := LowAt(step.key)];
    NewName(t.lows, t.nextId, LowAt(step.key), lows');
    NewUnlisted(t, s);
    SplitStep(p, j, s, t.lows, lows', t.seen, t.posts);
    KidStepKeeps(t, i, KidSplit(p, j, s), lows', t.nextId + 1);
    AfterSplitKid(t, step);
  }

  lemma AfterSplitKid(t: State, step: Step)
    requires step.SplitKid? && Enabled(t, step)
    ensures After(t, step) == Replace(t, step.i, KidSplit(t.parents[step.i], step.j, Sep(step.key, t.nextId))).(
              lows := t.lows[t.nextId := LowAt(step.key)], nextId := t.nextId + 1)
  {
    hide KidSplit, Free;
  }

  lemma NewName(lows: map<NodeId, Low>, id: NodeId, low: Low, lows': map<NodeId, Low>)
    requires (forall x :: x in lows ==> x < id) && lows' == lows[id := low]
    ensures TreeRouting.Extends(lows, lows') && Names(lows', id, low)
    ensures forall x :: x in lows' ==> x < id + 1
  {
  }

  lemma NewUnlisted(t: State, s: Sep)
    requires Inv(t) && s.id == t.nextId
    ensures !Listed(t.seen, s)
  {
    hide ParentOk, AllApart, Seps;
  }

  lemma MergeKidKeeps(t: State, step: Step)
    requires Inv(t) && step.MergeKid? && Enabled(t, step)
    ensures Inv(After(t, step))
  {
    var i, j := step.i, step.j;
    var p := t.parents[i];
    InvAt(t, i);
    FreeIsQuiet(t, i, j);
    hide *;
    ParentParts(p, t.lows, t.seen, t.posts, t.nextVersion);
    AfterMergeKid(t, step);
    KnownIds(t);
    TreeRouting.ExtendsItself(t.lows);
    MergeStep(p, j, t.lows, t.seen, t.posts);
    KidStepKeeps(t, i, KidMerged(p, j), t.lows, t.nextId);
    ReplaceIs(t, i, KidMerged(p, j));
  }

  lemma AfterMergeKid(t: State, step: Step)
    requires step.MergeKid? && Enabled(t, step)
    ensures step.i < |t.parents| && step.j + 1 < |t.parents[step.i].kids| && t.parents[step.i].kids[step.j + 1].top.RemoveTop?
    ensures After(t, step) == Replace(t, step.i, KidMerged(t.parents[step.i], step.j))
  {
    hide KidMerged, Free;
  }

  lemma PrepareKeeps(t: State, step: Step)
    requires Inv(t) && step.Prepare? && Enabled(t, step)
    ensures Inv(After(t, step))
  {
    var i, j, t' := step.i, step.j, After(t, step);
    var p := t.parents[i];
    var c := Term(p.kids[j], step.prevKey, step.loc, p.chain);
    var x := Post(p.version, p.kids[j].id, c);
    assert Pending(p, j, c);
    assert t' == t.(posts := t.posts + {x});
    InvAt(t, i);
    hide ChainOk, KidsOk, Unseen, Pending, LowOf, HighOf, Seps, KidsNamed, Term, Postable, After, Enabled;
    assert PostOk(p, x);
    assert PostsOk(p, t'.posts);
    assert ParentOk(p, t.lows, t.seen, t'.posts, t.nextVersion);
    hide ParentOk;
    forall a | 0 <= a < |t.parents|
      ensures ParentOk(t.parents[a], t.lows, t.seen, t'.posts, t.nextVersion)
    {
      if a != i {
        InvAt(t, a);
        assert a < i ==> Apart(t.parents[a], p);
        assert i < a ==> Apart(p, t.parents[a]);
        OtherKeeps(t, t', t.parents[a], {});
      }
    }
    PostsBelow(t, x);
  }

  lemma PostsBelow(t: State, x: Post)
    requires Inv(t) && x.version < t.nextVersion
    ensures Known(t.(posts := t.posts + {x}))
  {
    hide ParentOk, AllApart, Seps;
  }

  /** Nothing is prepared against a version that does not exist yet. */
  lemma NewVersion(t: State, p': Parent)
    requires Inv(t) && t.nextVersion <= p'.version
    ensures PostsOk(p', t.posts) && forall a :: 0 <= a < |t.parents| ==> t.parents[a].version < p'.version
  {
    forall a | 0 <= a < |t.parents|
      ensures t.parents[a].version < t.nextVersion
    {
      InvAt(t, a);
    }
    hide ParentOk, AllApart, Seps, PostOk;
  }

  lemma ChainIdsKnown(c: Inner, lows: map<NodeId, Low>)
    requires ChainOk(c, lows)
    ensures forall s :: s in Seps(c) ==> s.id in lows
  {
    hide Exact;
    forall s | s in Seps(c)
      ensures s.id in lows
    {
      TreeRouting.SepNamed(c, lows, s);
    }
  }

  lemma ApartAt(t: State, a: nat, b: nat)
    requires Inv(t) && a < |t.parents| && b < |t.parents| && a != b
    ensures t.parents[a].version != t.parents[b].version
    ensures if a < b then Before(t.parents[a].chain, t.parents[b].chain) else Before(t.parents[b].chain, t.parents[a].chain)
  {
    hide ParentOk, Before;
    assert if a < b then Apart(t.parents[a], t.parents[b]) else Apart(t.parents[b], t.parents[a]);
  }

  lemma InstallKeeps(t: State, i: nat, c: Inner, kids: seq<Kid>)
    requires Inv(t) && i < |t.parents|
    requires InstallOk(t.parents[i], t.parents[i].(chain := c, kids := kids, version := t.nextVersion), t.lows, t.seen)
    ensures Inv(Install(t, i, c, kids))
  {
    hide *;
    var t' := Install(t, i, c, kids);
    var p' := t.parents[i].(chain := c, kids := kids, version := t.nextVersion);
    InstalledIs(t, i, c, kids);
    NewVersion(t, p');
    InstalledOk(t, i, p');
    ParentFormed(p', t.lows, t.seen + {c}, t.posts, t.nextVersion + 1);
    ParentKnown(p', t.lows, t.seen + {c}, t.posts, t.nextVersion + 1);
    InstalledKnown(t, c);
    forall a | 0 <= a < |t.parents| && a != i
      ensures ParentOk(t.parents[a], t.lows, t.seen + {c}, t.posts, t.nextVersion + 1)
      ensures if a < i then Apart(t.parents[a], p') else Apart(p', t.parents[a])
    {
      InstallAside(t, t', i, p', a);
    }
    InstallAll(t, i, p', t');
    KnownAlike(t.(seen := t.seen + {c}, nextVersion := t.nextVersion + 1), t');
    InvFrom(t');
  }

  lemma InstalledIs(t: State, i: nat, c: Inner, kids: seq<Kid>)
    requires i < |t.parents|
    ensures var p' := t.parents[i].(chain := c, kids := kids, version := t.nextVersion);
            Install(t, i, c, kids) == t.(parents := t.parents[i := p'], seen := t.seen + {c}, nextVersion := t.nextVersion + 1)
  {
  }

  lemma InstalledOk(t: State, i: nat, p': Parent)
    requires Inv(t) && i < |t.parents| && InstallOk(t.parents[i], p', t.lows, t.seen) && p'.version == t.nextVersion && PostsOk(p', t.posts)
    ensures ParentOk(p', t.lows, t.seen + {p'.chain}, t.posts, t.nextVersion + 1)
    ensures LowOf(p'.chain) == LowOf(t.parents[i].chain) && HighOf(p'.chain) == HighOf(t.parents[i].chain)
  {
    InvAt(t, i);
    hide Inv, ChainOk, KidsOk, Unseen, PostsOk, LowOf, HighOf, KidsNamed;
  }

  lemma InstallAside(t: State, t': State, i: nat, p': Parent, a: nat)
    requires Inv(t) && i < |t.parents| && a < |t.parents| && a != i
    requires t'.seen == t.seen + {p'.chain} && t'.lows == t.lows && t'.posts == t.posts && t'.nextVersion == t.nextVersion + 1
    requires WellFormed(p'.chain) && p'.version == t.nextVersion && t.parents[a].version < t.nextVersion
    requires LowOf(p'.chain) == LowOf(t.parents[i].chain) && HighOf(p'.chain) == HighOf(t.parents[i].chain)
    ensures ParentOk(t.parents[a], t'.lows, t'.seen, t'.posts, t'.nextVersion)
    ensures if a < i then Apart(t.parents[a], p') else Apart(p', t.parents[a])
  {
    InvAt(t, a);
    ApartAt(t, a, i);
    TreeRouting.ExtendsItself(t.lows);
    hide Inv, ParentOk, LowOf, HighOf, WellFormed;
    OtherKeeps(t, t', t.parents[a], {p'.chain});
  }

  lemma InstallAll(t: State, i: nat, p': Parent, t': State)
    requires Inv(t) && i < |t.parents| && t'.parents == t.parents[i := p']
    requires ParentOk(p', t'.lows, t'.seen, t'.posts, t'.nextVersion)
    requires forall a :: 0 <= a < |t.parents| && a != i ==>
               && ParentOk(t.parents[a], t'.lows, t'.seen, t'.posts, t'.nextVersion)
               && if a < i then Apart(t.parents[a], p') else Apart(p', t.parents[a])
    ensures AllApart(t'.parents) && forall a :: 0 <= a < |t'.parents| ==> ParentOk(t'.parents[a], t'.lows, t'.seen, t'.posts, t'.nextVersion)
  {
    hide ParentOk, Apart, Known;
  }

  lemma InstalledKnown(t: State, c: Inner)
    requires Inv(t) && forall s :: s in Seps(c) ==> s.id in t.lows
    ensures Known(t.(seen := t.seen + {c}, nextVersion := t.nextVersion + 1))
  {
    hide ParentOk, AllApart, Seps;
  }

  lemma CommitKeeps(t: State, step: Step)
    requires Inv(t) && step.Commit? && Enabled(t, step)
    ensures Inv(After(t, step))
  {
    var i, x := step.i, step.post;
    var p := t.parents[i];
    InvAt(t, i);
    hide *;
    ParentParts(p, t.lows, t.seen, t.posts, t.nextVersion);
    EnabledCommit(t, step);
    var j := PostKid(p, x, t.posts);
    KidsFramed(p);
    MarkedIs(p, j, t.lows);
    CommitStep(p, j, x.chain, t.nextVersion, t.lows, t.seen);
    PostedIs(p, j, x.chain, t.nextVersion);
    InstallKeeps(t, i, x.chain, Marked(p.kids, x.kid));
  }

  lemma KidsFramed(p: Parent)
    requires KidsOk(p)
    ensures Framed(p)
  {
    hide Framed, KidOk;
  }

  lemma PostedIs(p: Parent, j: nat, c: Inner, version: nat)
    requires j < |p.kids|
    ensures Posted(p, j, c, version) == p.(chain := c, kids := p.kids[j := p.kids[j].(finished := true)], version := version)
  {
  }

  lemma EnabledCommit(t: State, step: Step)
    requires step.Commit? && Enabled(t, step)
    ensures step.post in t.posts && step.i < |t.parents| && step.post.version == t.parents[step.i].version
    ensures After(t, step) == Install(t, step.i, step.post.chain, Marked(t.parents[step.i].kids, step.post.kid))
  {
    hide Install, Marked;
  }

  lemma PostKid(p: Parent, x: Post, posts: set<Post>) returns (j: nat)
    requires PostsOk(p, posts) && x in posts && x.version == p.version
    ensures j < |p.kids| && p.kids[j].id == x.kid && Pending(p, j, x.chain)
  {
    hide Pending;
    assert PostOk(p, x);
    j :| 0 <= j < |p.kids| && p.kids[j].id == x.kid && Pending(p, j, x.chain);
  }

  lemma ConsolidateKeeps(t: State, step: Step)
    requires Inv(t) && step.ConsolidateParent? && Enabled(t, step)
    ensures Inv(After(t, step))
  {
    var i, p := step.i, t.parents[step.i];
    InvAt(t, i);
    hide *;
    ParentParts(p, t.lows, t.seen, t.posts, t.nextVersion);
    EnabledConsolidate(t, step);
    ConsolidateStep(p, step.base, t.nextVersion, t.lows, t.seen);
    InstallKeeps(t, i, step.base, p.kids);
  }

  lemma EnabledConsolidate(t: State, step: Step)
    requires step.ConsolidateParent? && Enabled(t, step)
    ensures step.i < |t.parents|
    ensures var c := t.parents[step.i].chain;
            && step.base.Base? && step.base.low == LowOf(c) && step.base.high == HighOf(c)
            && WellFormed(step.base) && Seps(step.base) == Seps(c) && LowIdOf(step.base) == LowIdOf(c)
    ensures After(t, step) == Install(t, step.i, step.base, t.parents[step.i].kids)
  {
    hide Install, WellFormed, Seps, LowIdOf, LowOf, HighOf;
  }

  // ------------------------------------------------------------------------------------
  // Parents that split and merge
  // ------------------------------------------------------------------------------------

  /** The halves lie where the whole did. */
  lemma HalfEnds(p: Parent, m: nat, count: nat, newId: NodeId, version: nat, q: Inner)
    requires CutAt(p, m, count) && WellFormed(p.chain) && KidsOk(p)
    ensures var l, r := LeftHalf(p, m, count, newId, version).chain, RightHalf(p, m, count, newId, version + 1).chain;
            && Before(l, r) && (Before(p.chain, q) ==> Before(l, q) && Before(r, q)) && (Before(q, p.chain) ==> Before(q, l) && Before(q, r))
            && Seps(l) <= Seps(p.chain) && Seps(r) <= Seps(p.chain) && LowOf(l) == LowOf(p.chain) && LowOf(r) == p.kids[m].low
  {
    LeftSeps(p, m, count, newId, version);
    RightSeps(p, m, count, newId, version + 1);
    KidsFramed(p);
    SepAbove(p, m);
    hide CutAt, LeftHalf, RightHalf, WellFormed, LowOf, HighOf, Seps, KidsOk, Framed;
  }

  lemma HalfChains(p: Parent, m: nat, count: nat, newId: NodeId, version: nat, lows: map<NodeId, Low>, seen: set<Inner>)
    requires ChainOk(p.chain, lows) && KidsOk(p) && KidsNamed(p.kids, lows) && Unseen(p, seen) && CutAt(p, m, count)
    requires Names(lows, newId, p.kids[m].low)
    ensures var l, r := LeftHalf(p, m, count, newId, version), RightHalf(p, m, count, newId, version + 1);
            NewParent(l, lows, seen + {l.chain, r.chain}) && NewParent(r, lows, seen + {l.chain, r.chain})
  {
    var l, r := LeftHalf(p, m, count, newId, version), RightHalf(p, m, count, newId, version + 1);
    assert WellFormed(p.chain);
    hide CutAt, LeftHalf, RightHalf, WellFormed, LowOf, HighOf, Seps, KidsOk, ChainOk, NewParent, Unseen;
    HalfEnds(p, m, count, newId, version, p.chain);
    KidsFramed(p);
    SepAbove(p, m);
    LeftStep(p, m, count, newId, version, lows, seen, {l.chain, r.chain});
    RightStep(p, m, count, newId, version + 1, lows, seen, {l.chain, r.chain});
  }

  lemma KidsNamedGrow(kids: seq<Kid>, lows: map<NodeId, Low>, lows': map<NodeId, Low>)
    requires KidsNamed(kids, lows) && TreeRouting.Extends(lows, lows')
    ensures KidsNamed(kids, lows')
  {
  }

  lemma HalvesNew(t: State, i: nat, m: nat, count: nat, lows': map<NodeId, Low>)
    requires Inv(t) && i < |t.parents| && CutAt(t.parents[i], m, count)
    requires lows' == t.lows[t.nextId := t.parents[i].kids[m].low]
    ensures var l, r := LeftHalf(t.parents[i], m, count, t.nextId, t.nextVersion), RightHalf(t.parents[i], m, count, t.nextId, t.nextVersion + 1);
            && ParentOk(l, lows', t.seen + {l.chain, r.chain}, t.posts, t.nextVersion + 2)
            && ParentOk(r, lows', t.seen + {l.chain, r.chain}, t.posts, t.nextVersion + 2)
            && TreeRouting.Extends(t.lows, lows')
  {
    var p := t.parents[i];
    var l, r := LeftHalf(p, m, count, t.nextId, t.nextVersion), RightHalf(p, m, count, t.nextId, t.nextVersion + 1);
    assert l.id == p.id && r.id == t.nextId && l.version == t.nextVersion && r.version == t.nextVersion + 1;
    InvAt(t, i);
    KnownIds(t);
    NewVersion(t, l);
    NewVersion(t, r);
    NewName(t.lows, t.nextId, p.kids[m].low, lows');
    assert WellFormed(p.chain);
    hide *;
    ParentParts(p, t.lows, t.seen, t.posts, t.nextVersion);
    ChainOkGrows(p.chain, t.lows, lows');
    KidsNamedGrow(p.kids, t.lows, lows');
    NameGrows(p.id, LowOf(p.chain), t.lows, lows');
    HalfChains(p, m, count, t.nextId, t.nextVersion, lows', t.seen);
    HalfEnds(p, m, count, t.nextId, t.nextVersion, p.chain);
    NewParentParts(l, lows', t.seen + {l.chain, r.chain});
    NewParentParts(r, lows', t.seen + {l.chain, r.chain});
    ParentParts(l, lows', t.seen + {l.chain, r.chain}, t.posts, t.nextVersion + 2);
    ParentParts(r, lows', t.seen + {l.chain, r.chain}, t.posts, t.nextVersion + 2);
  }

  lemma NameGrows(id: NodeId, low: Low, lows: map<NodeId, Low>, lows': map<NodeId, Low>)
    requires Names(lows, id, low) && TreeRouting.Extends(lows, lows')
    ensures Names(lows', id, low)
  {
  }

  lemma NewParentParts(p: Parent, lows: map<NodeId, Low>, seen: set<Inner>)
    ensures NewParent(p, lows, seen) <==> ChainOk(p.chain, lows) && KidsOk(p) && KidsNamed(p.kids, lows) && Unseen(p, seen)
  {
    hide ChainOk, KidsOk, KidsNamed, Unseen;
  }

  lemma AfterSplitParent(t: State, step: Step)
    requires step.SplitParent? && Enabled(t, step)
    ensures step.i < |t.parents| && CutAt(t.parents[step.i], step.m, step.count)
    ensures var l, r := LeftHalf(t.parents[step.i], step.m, step.count, t.nextId, t.nextVersion), RightHalf(t.parents[step.i], step.m, step.count, t.nextId, t.nextVersion + 1);
            After(t, step) == State(t.parents[..step.i] + [l, r] + t.parents[step.i + 1..], t.posts, t.seen + {l.chain, r.chain},
                                    t.lows[t.nextId := t.parents[step.i].kids[step.m].low], t.nextId + 1, t.nextVersion + 2)
  {
  }

  lemma SplitAside(t: State, t': State, i: nat, m: nat, count: nat, b: nat)
    requires Inv(t) && i < |t.parents| && b < |t.parents| && b != i && CutAt(t.parents[i], m, count) && TreeRouting.Extends(t.lows, t'.lows)
    requires t'.posts == t.posts && t'.nextVersion == t.nextVersion + 2 && t.parents[b].version < t.nextVersion
    requires var l, r := LeftHalf(t.parents[i], m, count, t.nextId, t.nextVersion), RightHalf(t.parents[i], m, count, t.nextId, t.nextVersion + 1);
             t'.seen == t.seen + {l.chain, r.chain} && WellFormed(l.chain) && WellFormed(r.chain)
    ensures var l, r := LeftHalf(t.parents[i], m, count, t.nextId, t.nextVersion), RightHalf(t.parents[i], m, count, t.nextId, t.nextVersion + 1);
            && ParentOk(t.parents[b], t'.lows, t'.seen, t'.posts, t'.nextVersion)
            && if b < i then Apart(t.parents[b], l) && Apart(t.parents[b], r) else Apart(l, t.parents[b]) && Apart(r, t.parents[b])
  {
    var p := t.parents[i];
    var l, r := LeftHalf(p, m, count, t.nextId, t.nextVersion), RightHalf(p, m, count, t.nextId, t.nextVersion + 1);
    assert l.version == t.nextVersion && r.version == t.nextVersion + 1;
    InvAt(t, i);
    assert KidsOk(p) && WellFormed(p.chain);
    InvAt(t, b);
    ApartAt(t, b, i);
    hide Inv, ParentOk, CutAt, LeftHalf, RightHalf, LowOf, HighOf, Seps, WellFormed, KidsOk, Before;
    HalfEnds(p, m, count, t.nextId, t.nextVersion, t.parents[b].chain);
    OtherKeeps(t, t', t.parents[b], {l.chain, r.chain});
  }

  lemma SplitParentKeeps(t: State, step: Step)
    requires Inv(t) && step.SplitParent? && Enabled(t, step)
    ensures Inv(After(t, step))
  {
    hide *;
    var i, m, count, t' := step.i, step.m, step.count, After(t, step);
    AfterSplitParent(t, step);
    var l, r := LeftHalf(t.parents[i], m, count, t.nextId, t.nextVersion), RightHalf(t.parents[i], m, count, t.nextId, t.nextVersion + 1);
    HalvesNew(t, i, m, count, t'.lows);
    HalvesApart(t, i, m, count);
    NewVersion(t, l);
    ParentFormed(l, t'.lows, t'.seen, t'.posts, t'.nextVersion);
    ParentFormed(r, t'.lows, t'.seen, t'.posts, t'.nextVersion);
    forall b | 0 <= b < |t.parents| && b != i
      ensures ParentOk(t.parents[b], t'.lows, t'.seen, t'.posts, t'.nextVersion)
      ensures if b < i then Apart(t.parents[b], l) && Apart(t.parents[b], r) else Apart(l, t.parents[b]) && Apart(r, t.parents[b])
    {
      SplitAside(t, t', i, m, count, b);
    }
    SplitApart(t, i, l, r, t'.parents);
    SplitKnown(t, t', l, r);
    SplitAll(t, t', i, l, r);
    InvFrom(t');
  }

  lemma HalvesApart(t: State, i: nat, m: nat, count: nat)
    requires Inv(t) && i < |t.parents| && CutAt(t.parents[i], m, count)
    ensures var l, r := LeftHalf(t.parents[i], m, count, t.nextId, t.nextVersion), RightHalf(t.parents[i], m, count, t.nextId, t.nextVersion + 1);
            Apart(l, r) && l.version == t.nextVersion && r.version == t.nextVersion + 1
  {
    var p := t.parents[i];
    InvAt(t, i);
    assert KidsOk(p) && WellFormed(p.chain);
    hide Inv, ParentOk, CutAt, LowOf, HighOf, Seps, WellFormed, KidsOk, Before;
    HalfEnds(p, m, count, t.nextId, t.nextVersion, p.chain);
  }

  lemma SplitAll(t: State, t': State, i: nat, l: Parent, r: Parent)
    requires i < |t.parents| && t'.parents == t.parents[..i] + [l, r] + t.parents[i + 1..]
    requires ParentOk(l, t'.lows, t'.seen, t'.posts, t'.nextVersion) && ParentOk(r, t'.lows, t'.seen, t'.posts, t'.nextVersion)
    requires forall b :: 0 <= b < |t.parents| && b != i ==> ParentOk(t.parents[b], t'.lows, t'.seen, t'.posts, t'.nextVersion)
    ensures forall a :: 0 <= a < |t'.parents| ==> ParentOk(t'.parents[a], t'.lows, t'.seen, t'.posts, t'.nextVersion)
  {
    hide ParentOk;
    forall a | 0 <= a < |t'.parents|
      ensures ParentOk(t'.parents[a], t'.lows, t'.seen, t'.posts, t'.nextVersion)
    {
      assert t'.parents[a] == if a < i then t.parents[a] else if a == i then l else if a == i + 1 then r else t.parents[a - 1];
    }
  }

  lemma ParentFormed(p: Parent, lows: map<NodeId, Low>, seen: set<Inner>, posts: set<Post>, nextVersion: nat)
    requires ParentOk(p, lows, seen, posts, nextVersion)
    ensures WellFormed(p.chain)
  {
    hide WellFormed, KidsOk, PostsOk, Unseen;
  }

  lemma SplitApart(t: State, i: nat, l: Parent, r: Parent, parents': seq<Parent>)
    requires Inv(t) && i < |t.parents| && parents' == t.parents[..i] + [l, r] + t.parents[i + 1..] && Apart(l, r)
    requires forall b :: 0 <= b < |t.parents| && b != i ==>
               if b < i then Apart(t.parents[b], l) && Apart(t.parents[b], r) else Apart(l, t.parents[b]) && Apart(r, t.parents[b])
    ensures AllApart(parents')
  {
    hide ParentOk, Apart, Known;
    forall a, b | 0 <= a < b < |parents'|
      ensures Apart(parents'[a], parents'[b])
    {
      var a0, b0 := if a <= i then a else a - 1, if b <= i then b else b - 1;
      assert a0 < b0 ==> Apart(t.parents[a0], t.parents[b0]);
    }
  }

  lemma SplitKnown(t: State, t': State, l: Parent, r: Parent)
    requires Inv(t) && ParentOk(l, t'.lows, t'.seen, t'.posts, t'.nextVersion) && ParentOk(r, t'.lows, t'.seen, t'.posts, t'.nextVersion)
    requires t'.seen == t.seen + {l.chain, r.chain} && t'.posts == t.posts && t'.nextVersion == t.nextVersion + 2 && t'.nextId == t.nextId + 1
    requires TreeRouting.Extends(t.lows, t'.lows) && t'.lows.Keys == t.lows.Keys + {t.nextId}
    ensures Known(t')
  {
    ChainIdsKnown(l.chain, t'.lows);
    ChainIdsKnown(r.chain, t'.lows);
    hide ParentOk, AllApart, Seps;
    forall c, s | c in t'.seen && s in Seps(c)
      ensures s.id in t'.lows
    {
      if c in t.seen { assert s.id in t.lows; }
    }
  }

  lemma InvFrom(t: State)
    requires AllApart(t.parents) && Known(t)
    requires forall i :: 0 <= i < |t.parents| ==> ParentOk(t.parents[i], t.lows, t.seen, t.posts, t.nextVersion)
    ensures Inv(t)
  {
    hide ParentOk, AllApart, Known;
  }

  lemma AfterMergeParent(t: State, step: Step)
    requires step.MergeParent? && Enabled(t, step)
    ensures step.i + 1 < |t.parents| && t.parents[step.i + 1].chain.Base?
    ensures HighOf(t.parents[step.i].chain).HighAt? && HighOf(t.parents[step.i].chain).next == t.parents[step.i + 1].id
    ensures var p' := Joined(t.parents[step.i], t.parents[step.i + 1], t.nextVersion);
            After(t, step) == t.(parents := t.parents[..step.i] + [p'] + t.parents[step.i + 2..], seen := t.seen + {p'.chain}, nextVersion := t.nextVersion + 1)
  {
  }

  /** The right neighbour begins where the high key says. */
  lemma MeetAt(p: Parent, q: Parent, lows: map<NodeId, Low>)
    requires ChainOk(p.chain, lows) && Names(lows, q.id, LowOf(q.chain)) && HighOf(p.chain).HighAt? && HighOf(p.chain).next == q.id
    ensures LowOf(q.chain) == LowAt(HighOf(p.chain).key)
  {
    hide Exact, WellFormed, LowOf, HighOf;
    HighIsNamed(p.chain, lows);
  }

  lemma JoinedNew(t: State, i: nat)
    requires Inv(t) && i + 1 < |t.parents| && t.parents[i + 1].chain.Base?
    requires HighOf(t.parents[i].chain).HighAt? && HighOf(t.parents[i].chain).next == t.parents[i + 1].id
    ensures var p' := Joined(t.parents[i], t.parents[i + 1], t.nextVersion);
            && ParentOk(p', t.lows, t.seen + {p'.chain}, t.posts, t.nextVersion + 1) && p'.version == t.nextVersion
            && LowOf(p'.chain) == LowOf(t.parents[i].chain) && HighOf(p'.chain) == HighOf(t.parents[i + 1].chain)
  {
    var p, q := t.parents[i], t.parents[i + 1];
    var p' := Joined(p, q, t.nextVersion);
    assert p'.id == p.id && p'.version == t.nextVersion;
    InvAt(t, i);
    InvAt(t, i + 1);
    NewVersion(t, p');
    hide *;
    ParentParts(p, t.lows, t.seen, t.posts, t.nextVersion);
    ParentParts(q, t.lows, t.seen, t.posts, t.nextVersion);
    MeetAt(p, q, t.lows);
    JoinStep(p, q, t.nextVersion, t.lows, t.seen);
    NewParentParts(p', t.lows, t.seen + {p'.chain});
    ParentParts(p', t.lows, t.seen + {p'.chain}, t.posts, t.nextVersion + 1);
  }

  lemma MergeAside(t: State, t': State, i: nat, p': Parent, b: nat)
    requires Inv(t) && i + 1 < |t.parents| && b < |t.parents| && b != i && b != i + 1
    requires t'.seen == t.seen + {p'.chain} && t'.lows == t.lows && t'.posts == t.posts && t'.nextVersion == t.nextVersion + 1
    requires WellFormed(p'.chain) && p'.version == t.nextVersion && t.parents[b].version < t.nextVersion
    requires LowOf(p'.chain) == LowOf(t.parents[i].chain) && HighOf(p'.chain) == HighOf(t.parents[i + 1].chain)
    ensures ParentOk(t.parents[b], t'.lows, t'.seen, t'.posts, t'.nextVersion)
    ensures if b < i then Apart(t.parents[b], p') else Apart(p', t.parents[b])
  {
    InvAt(t, b);
    ApartAt(t, b, i);
    ApartAt(t, b, i + 1);
    TreeRouting.ExtendsItself(t.lows);
    hide Inv, ParentOk, LowOf, HighOf, WellFormed;
    OtherKeeps(t, t', t.parents[b], {p'.chain});
  }

  lemma MergeParentKeeps(t: State, step: Step)
    requires Inv(t) && step.MergeParent? && Enabled(t, step)
    ensures Inv(After(t, step))
  {
    hide *;
    var i, t' := step.i, After(t, step);
    AfterMergeParent(t, step);
    var p' := Joined(t.parents[i], t.parents[i + 1], t.nextVersion);
    JoinedNew(t, i);
    NewVersion(t, p');
    ParentFormed(p', t.lows, t'.seen, t.posts, t'.nextVersion);
    ParentKnown(p', t.lows, t'.seen, t.posts, t'.nextVersion);
    InstalledKnown(t, p'.chain);
    forall b | 0 <= b < |t.parents| && b != i && b != i + 1
      ensures ParentOk(t.parents[b], t'.lows, t'.seen, t'.posts, t'.nextVersion)
      ensures if b < i then Apart(t.parents[b], p') else Apart(p', t.parents[b])
    {
      MergeAside(t, t', i, p', b);
    }
    MergeApart(t, i, p', t'.parents);
    MergeAll(t, t', i, p');
    KnownAlike(t.(seen := t.seen + {p'.chain}, nextVersion := t.nextVersion + 1), t');
    InvFrom(t');
  }

  lemma MergeAll(t: State, t': State, i: nat, p': Parent)
    requires i + 1 < |t.parents| && t'.parents == t.parents[..i] + [p'] + t.parents[i + 2..]
    requires ParentOk(p', t'.lows, t'.seen, t'.posts, t'.nextVersion)
    requires forall b :: 0 <= b < |t.parents| && b != i && b != i + 1 ==> ParentOk(t.parents[b], t'.lows, t'.seen, t'.posts, t'.nextVersion)
    ensures forall a :: 0 <= a < |t'.parents| ==> ParentOk(t'.parents[a], t'.lows, t'.seen, t'.posts, t'.nextVersion)
  {
    hide ParentOk;
    forall a | 0 <= a < |t'.parents|
      ensures ParentOk(t'.parents[a], t'.lows, t'.seen, t'.posts, t'.nextVersion)
    {
      assert t'.parents[a] == if a < i then t.parents[a] else if a == i then p' else t.parents[a + 1];
    }
  }

  lemma KnownAlike(t: State, t': State)
    requires Known(t) && t'.lows == t.lows && t'.posts == t.posts && t'.seen == t.seen && t'.nextId == t.nextId && t'.nextVersion == t.nextVersion
    ensures Known(t')
  {
  }

  lemma ParentKnown(p: Parent, lows: map<NodeId, Low>, seen: set<Inner>, posts: set<Post>, nextVersion: nat)
    requires ParentOk(p, lows, seen, posts, nextVersion)
    ensures forall s :: s in Seps(p.chain) ==> s.id in lows
  {
    hide WellFormed, KidsOk, PostsOk, Unseen, Exact, Named, Seps;
    ChainIdsKnown(p.chain, lows);
  }

  lemma MergeApart(t: State, i: nat, p': Parent, parents': seq<Parent>)
    requires Inv(t) && i + 1 < |t.parents| && parents' == t.parents[..i] + [p'] + t.parents[i + 2..]
    requires forall b :: 0 <= b < |t.parents| && b != i && b != i + 1 ==> if b < i then Apart(t.parents[b], p') else Apart(p', t.parents[b])
    ensures AllApart(parents')
  {
    hide ParentOk, Apart, Known;
    forall a, b | 0 <= a < b < |parents'|
      ensures Apart(parents'[a], parents'[b])
    {
      var a0, b0 := if a <= i then a else a + 1, if b <= i then b else b + 1;
      assert Apart(t.parents[a0], t.parents[b0]);
    }
  }

  // ------------------------------------------------------------------------------------
  // Every run
  // ------------------------------------------------------------------------------------

  lemma InitHolds(t: State)
    requires Init(t)
    ensures Inv(t)
  {
    var p := t.parents[0];
    assert SepOf(p.kids[0]) == Sep(0, 1);
    assert Seps(p.chain) == {};
    assert KidOk(p, 0);
    assert ParentOk(p, t.lows, t.seen, t.posts, t.nextVersion);
  }

  lemma FinishStep(t: State, step: Step)
    requires Inv(t) && (step.Found? || step.Gone? || step.Beyond?) && Enabled(t, step) && UpToDate(t, step)
    ensures Inv(After(t, step))
  {
    var i, j := step.i, step.j;
    var p := t.parents[i];
    InvAt(t, i);
    if step.Found? { assert Listed(t.seen, p.kids[j].top.sep); }
    assert After(t, step) == Replace(t, i, WithTop(p, j, p.kids[j].top, true));
    hide Inv, ChainOk, KidsOk, PostsOk, Seps, LowOf, HighOf, Settled, WithTop, Replace;
    FinishSettles(p, j, t.seen);
    FinishKeeps(t, i, j);
  }

  lemma StepKeeps(t: State, step: Step)
    requires Inv(t) && Enabled(t, step) && UpToDate(t, step)
    ensures Inv(After(t, step))
  {
    hide Inv, Free, Seps, LowOf, HighOf, Postable, WellFormed;
    match step
    case Work(i, j) => assert j < |t.parents[i].kids| by { FreeKid(t.parents[i], j, t.seen); } WorkKeeps(t, i, j, Plain);
    case SplitKid(_, _, _) => SplitKidKeeps(t, step);
    case RemoveKid(i, j) => assert j < |t.parents[i].kids| by { FreeKid(t.parents[i], j, t.seen); } WorkKeeps(t, i, j, RemoveTop);
    case MergeKid(_, _) => MergeKidKeeps(t, step);
    case Prepare(_, _, _, _) => PrepareKeeps(t, step);
    case Commit(_, _) => CommitKeeps(t, step);
    case ConsolidateParent(_, _) => ConsolidateKeeps(t, step);
    case SplitParent(_, _, _) => SplitParentKeeps(t, step);
    case MergeParent(_) => MergeParentKeeps(t, step);
    case _ => FinishStep(t, step);
  }

  lemma FreeKid(p: Parent, j: nat, seen: set<Inner>)
    requires Free(p, j, seen)
    ensures j < |p.kids|
  {
  }

  lemma {:induction false} RunKeeps(steps: seq<Step>, states: seq<State>, n: nat)
    requires Run(steps, states) && n <= |steps|
    requires forall i :: 0 <= i < n ==> UpToDate(states[i], steps[i])
    ensures Inv(states[n])
  {
    hide Inv, Enabled, After, UpToDate;
    if n == 0 {
      InitHolds(states[0]);
    } else {
      RunKeeps(steps, states, n - 1);
      StepKeeps(states[n - 1], steps[n - 1]);
    }
  }

  /** In every run in which the bounds check is made against the current parent, every delta of every
      parent was posted with the neighbours its key had then, so that searching the chain always ends
      where the consolidated separators say. */
  lemma EveryRun(steps: seq<Step>, states: seq<State>, i: nat)
    requires Run(steps, states) && forall n :: 0 <= n < |steps| ==> UpToDate(states[n], steps[n])
    requires i < |states[|steps|].parents|
    ensures var c := states[|steps|].parents[i].chain;
            WellFormed(c) && Exact(c) && InnerAgree.AgreesThroughout(c) && forall k :: InPlace(c, k) ==> Routes(c, k, Choice(c, k))
  {
    var t, c := states[|steps|], states[|steps|].parents[i].chain;
    RunKeeps(steps, states, |steps|);
    InvAt(t, i);
    hide Run, Routes, Inv, Named;
    assert ChainOk(c, t.lows);
    InnerAgree.AgreesIffExact(c, t.lows);
    assert InnerAgree.Agrees(c);
  }

  /** No split, merge or removal of a child is under way. */
  ghost predicate AtRest(p: Parent)
  {
    forall j :: 0 <= j < |p.kids| ==> p.kids[j].top.Plain?
  }

  predicate Covers(p: Parent, j: nat, k: int)
  {
    j < |p.kids| && AboveLow(k, p.kids[j].low) && BelowHigh(k, NextOf(p, j))
  }

  /** A parent at rest leads every key to the child whose range it is in. */
  lemma RestLeads(p: Parent, k: int, j: nat, lows: map<NodeId, Low>)
    requires KidsOk(p) && KidsNamed(p.kids, lows) && AtRest(p) && Covers(p, j, k)
    requires ChainOk(p.chain, lows) && Routes(p.chain, k, Choice(p.chain, k))
    ensures Choice(p.chain, k) == p.kids[j].id
  {
    RestKid(p, j);
    InnerAgree.AllWithin(p.chain);
    if j > 0 { SepAbove(p, j); }
    hide Seps, LowOf, HighOf, LowIdOf, KidsOk, ChainOk, Choice, WellFormed, Framed;
    forall s | s in Seps(p.chain) && s.key <= k
      ensures j > 0 && s.key <= SepOf(p.kids[j]).key
    {
      assert InnerAgree.Within(p.chain, s);
    }
  }

  lemma RestKid(p: Parent, j: nat)
    requires KidsOk(p) && AtRest(p) && j < |p.kids|
    ensures p.kids[0].id == LowIdOf(p.chain) && p.kids[0].low == LowOf(p.chain)
    ensures j > 0 ==> SepOf(p.kids[j]) in Seps(p.chain)
    ensures forall s :: s in Seps(p.chain) ==> !Inside(p, j, s.key)
    ensures forall s :: s in Seps(p.chain) && j > 0 && s.key == SepOf(p.kids[j]).key ==> s == SepOf(p.kids[j])
  {
    KidsOkAt(p, j);
    KidsFramed(p);
    hide Seps, LowOf, HighOf, LowIdOf, TopOk, Ordered;
  }

  /** In every such run, a search of a parent at rest goes on to the child that covers the key. */
  lemma EveryRunLeads(steps: seq<Step>, states: seq<State>, i: nat, j: nat, k: int)
    requires Run(steps, states) && forall n :: 0 <= n < |steps| ==> UpToDate(states[n], steps[n])
    requires i < |states[|steps|].parents|
    requires var p := states[|steps|].parents[i];
             AtRest(p) && Covers(p, j, k) && InRange(k, LowOf(p.chain), HighOf(p.chain))
    ensures Choice(states[|steps|].parents[i].chain, k) == states[|steps|].parents[i].kids[j].id
  {
    var t, p := states[|steps|], states[|steps|].parents[i];
    RunKeeps(steps, states, |steps|);
    EveryRun(steps, states, i);
    InvAt(t, i);
    hide Run, Routes, Inv, AtRest, Choice, WellFormed, KidsOk, Exact, Covers;
    assert InPlace(p.chain, k);
    RestLeads(p, k, j, t.lows);
  }
}
