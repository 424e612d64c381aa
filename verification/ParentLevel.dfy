/** Inner nodes over the level below: split and merge deltas of children, and the index-term deltas that
finish them, under the help-along protocol.

A child with an unfinished split or merge delta on top is not operated on before the thread has
finished it; a thread reaches the new sibling of a split only past the finished delta, or through a
parent that lists it.  Index-term deltas are prepared against a snapshot of the parent and installed
only while the parent is still that snapshot. */
module ParentLevel {
  import opened BwTypes
  import opened InnerChain
  import opened InnerSearch
  import TreeRouting

  /** What is on top of a child; `next` is the high key pair that FinishPartialSMO passes on. */
  datatype Top = Plain | SplitTop(sep: Sep, next: High) | MergeTop(sep: Sep, next: High) | RemoveTop

  /** `finished`: some thread has returned from FinishPartialSMO with this very top. */
  datatype Kid = Kid(id: NodeId, low: Low, top: Top, finished: bool)

  datatype Parent = Parent(id: NodeId, version: nat, chain: Inner, kids: seq<Kid>)

  /** An index-term delta on its way: the new chain for the parent that has this version. */
  datatype Post = Post(version: nat, kid: NodeId, chain: Inner)

  datatype State = State(parents: seq<Parent>, posts: set<Post>, seen: set<Inner>, lows: map<NodeId, Low>, nextId: NodeId, nextVersion: nat)

  datatype Step =
    | Work(i: nat, j: nat)
    | SplitKid(i: nat, j: nat, key: int)
    | RemoveKid(i: nat, j: nat)
    | MergeKid(i: nat, j: nat)
    | Prepare(i: nat, j: nat, prevKey: int, loc: nat)
    | Commit(i: nat, post: Post)
    | Found(i: nat, j: nat, c: Inner)
    | Gone(i: nat, j: nat)
    | Beyond(i: nat, j: nat, c: Inner)
    | ConsolidateParent(i: nat, base: Inner)
    | SplitParent(i: nat, m: nat, count: nat)
    | MergeParent(i: nat)

  /** The separator of a child. */
  function SepOf(kid: Kid): Sep
  {
    Sep(if kid.low.LowAt? then kid.low.key else 0, kid.id)
  }

  /** Where a child ends: at its right neighbour, or with the parent. */
  function NextOf(p: Parent, j: nat): High
  {
    if j + 1 < |p.kids| then HighAt(SepOf(p.kids[j + 1]).key, p.kids[j + 1].id) else HighOf(p.chain)
  }

  predicate Finished(kid: Kid)
  {
    kid.top.Plain? || ((kid.top.SplitTop? || kid.top.MergeTop?) && kid.finished)
  }

  ghost predicate Listed(seen: set<Inner>, s: Sep)
  {
    exists c :: c in seen && s in Seps(c)
  }

  ghost predicate Reached(p: Parent, j: nat, seen: set<Inner>)
    requires j < |p.kids|
  {
    j == 0 || p.kids[j - 1].finished || Listed(seen, SepOf(p.kids[j])) || !(p.kids[j - 1].top.SplitTop? && p.kids[j - 1].top.sep == SepOf(p.kids[j]))
  }

  /** A thread may install something on the child. */
  ghost predicate Free(p: Parent, j: nat, seen: set<Inner>)
  {
    j < |p.kids| && Finished(p.kids[j]) && Reached(p, j, seen)
  }

  /** The index-term delta for the top of a child. */
  function Term(kid: Kid, prevKey: int, loc: nat, chain: Inner): Inner
  {
    match kid.top
    case SplitTop(sep, next) => Insert(sep, next, loc, chain)
    case MergeTop(sep, next) => Delete(sep, Sep(prevKey, kid.id), next, loc, chain)
    case _ => chain
  }

  /** What FinishPartialSMO checks on the parent before it posts. */
  ghost predicate Postable(p: Parent, kid: Kid, prevKey: int, loc: nat)
  {
    && (kid.top.SplitTop? || kid.top.MergeTop?)
    && BelowHigh(kid.top.sep.key, HighOf(p.chain)) && Located(BaseFor(p.chain, kid.top.sep.key), kid.top.sep.key, loc)
    && (Has(p.chain, kid.top.sep.key) <==> kid.top.MergeTop?)
    && (kid.top.MergeTop? && kid.low.LowAt? ==> kid.low.key == prevKey)
  }

  ghost predicate Enabled(t: State, step: Step)
  {
    step.i < |t.parents| &&
    var p := t.parents[step.i];
    match step
    case Work(_, j) => Free(p, j, t.seen)
    case SplitKid(_, j, key) => Free(p, j, t.seen) && StrictlyAbove(key, p.kids[j].low) && BelowHigh(key, NextOf(p, j))
    case RemoveKid(_, j) => Free(p, j, t.seen) && j > 0
    case MergeKid(_, j) => Free(p, j, t.seen) && j + 1 < |p.kids| && p.kids[j + 1].top.RemoveTop?
    case Prepare(_, j, prevKey, loc) => j < |p.kids| && Postable(p, p.kids[j], prevKey, loc)
    case Commit(_, post) => post in t.posts && post.version == p.version
    case Found(_, j, c) => j < |p.kids| && p.kids[j].top.SplitTop? && c in t.seen && p.kids[j].top.sep in Seps(c)
    case Gone(_, j) => j < |p.kids| && p.kids[j].top.MergeTop? && !Has(p.chain, p.kids[j].top.sep.key)
    case Beyond(_, j, c) =>
      && j < |p.kids| && p.kids[j].top.SplitTop? && c in t.seen && !BelowHigh(p.kids[j].top.sep.key, HighOf(c))
      && (p.kids[j].low.LowAt? ==> InRange(p.kids[j].low.key, LowOf(c), HighOf(c))) && (p.kids[j].low.NegInf? ==> LowOf(c).NegInf?)
    case ConsolidateParent(_, base) =>
      && base.Base? && base.low == LowOf(p.chain) && base.high == HighOf(p.chain)
      && WellFormed(base) && Seps(base) == Seps(p.chain) && LowIdOf(base) == LowIdOf(p.chain)
    case SplitParent(_, m, count) =>
      && p.chain.Base? && 0 < m < |p.kids| && !p.kids[m].top.RemoveTop? && TreeRouting.INNER_NODE_SIZE_UPPER_THRESHOLD <= |p.chain.items|
      && count == |p.chain.items| - |p.chain.items| / 2
      && p.kids[m].low == LowAt(p.chain.items[|p.chain.items| - count].key)
    case MergeParent(i) =>
      && i + 1 < |t.parents| && t.parents[i + 1].chain.Base? && |t.parents[i + 1].chain.items| <= TreeRouting.INNER_NODE_SIZE_LOWER_THRESHOLD
      && HighOf(p.chain).HighAt? && HighOf(p.chain).next == t.parents[i + 1].id
  }

  /** The bounds check on the parent is made with what the parent is now. */
  predicate UpToDate(t: State, step: Step)
  {
    step.Beyond? ==> step.i < |t.parents| && step.c == t.parents[step.i].chain
  }

  // ------------------------------------------------------------------------------------
  // Effects
  // ------------------------------------------------------------------------------------

  function WithTop(p: Parent, j: nat, top: Top, finished: bool): Parent
    requires j < |p.kids|
  {
    p.(kids := p.kids[j := p.kids[j].(top := top, finished := finished)])
  }

  function KidSplit(p: Parent, j: nat, s: Sep): Parent
    requires j < |p.kids|
  {
    p.(kids := p.kids[..j] + [p.kids[j].(top := SplitTop(s, NextOf(p, j)), finished := false), Kid(s.id, LowAt(s.key), Plain, false)] + p.kids[j + 1..])
  }

  function KidMerged(p: Parent, j: nat): Parent
    requires j + 1 < |p.kids|
  {
    p.(kids := p.kids[..j] + [p.kids[j].(top := MergeTop(SepOf(p.kids[j + 1]), NextOf(p, j + 1)), finished := false)] + p.kids[j + 2..])
  }

  /** The thread that installed the index term has finished the delta on the child. */
  function Marked(kids: seq<Kid>, id: NodeId): seq<Kid>
  {
    seq(|kids|, j requires 0 <= j < |kids| => if kids[j].id == id then kids[j].(finished := true) else kids[j])
  }

  function Replace(t: State, i: nat, p: Parent): State
    requires i < |t.parents|
  {
    t.(parents := t.parents[i := p])
  }

  /** A successful CAS on a parent. */
  function Install(t: State, i: nat, c: Inner, kids: seq<Kid>): State
    requires i < |t.parents|
  {
    Replace(t, i, t.parents[i].(chain := c, kids := kids, version := t.nextVersion)).(seen := t.seen + {c}, nextVersion := t.nextVersion + 1)
  }

  function LeftHalf(p: Parent, m: nat, count: nat, newId: NodeId, version: nat): Parent
    requires p.chain.Base? && m < |p.kids| && 0 < count < |p.chain.items|
  {
    Parent(p.id, version, Split(p.chain.items[|p.chain.items| - count].key, newId, count, p.chain), p.kids[..m])
  }

  function RightHalf(p: Parent, m: nat, count: nat, newId: NodeId, version: nat): Parent
    requires p.chain.Base? && m < |p.kids| && 0 < count < |p.chain.items|
  {
    var n := |p.chain.items| - count;
    Parent(newId, version, Base(LowAt(p.chain.items[n].key), p.chain.high, p.chain.items[n..]), p.kids[m..])
  }

  function Joined(p: Parent, q: Parent, version: nat): Parent
    requires HighOf(p.chain).HighAt?
  {
    Parent(p.id, version, Merge(HighOf(p.chain).key, q.id, q.chain, p.chain), p.kids + q.kids)
  }

  function After(t: State, step: Step): State
    requires Enabled(t, step)
  {
    var p := t.parents[step.i];
    match step
    case Work(i, j) => Replace(t, i, WithTop(p, j, Plain, false))
    case SplitKid(i, j, key) => Replace(t, i, KidSplit(p, j, Sep(key, t.nextId))).(lows := t.lows[t.nextId := LowAt(key)], nextId := t.nextId + 1)
    case RemoveKid(i, j) => Replace(t, i, WithTop(p, j, RemoveTop, false))
    case MergeKid(i, j) => Replace(t, i, KidMerged(p, j))
    case Prepare(i, j, prevKey, loc) => t.(posts := t.posts + {Post(p.version, p.kids[j].id, Term(p.kids[j], prevKey, loc, p.chain))})
    case Commit(i, post) => Install(t, i, post.chain, Marked(p.kids, post.kid))
    case Found(i, j, _) => Replace(t, i, WithTop(p, j, p.kids[j].top, true))
    case Gone(i, j) => Replace(t, i, WithTop(p, j, p.kids[j].top, true))
    case Beyond(i, j, _) => Replace(t, i, WithTop(p, j, p.kids[j].top, true))
    case ConsolidateParent(i, base) => Install(t, i, base, p.kids)
    case SplitParent(i, m, count) =>
      var l, r := LeftHalf(p, m, count, t.nextId, t.nextVersion), RightHalf(p, m, count, t.nextId, t.nextVersion + 1);
      State(t.parents[..i] + [l, r] + t.parents[i + 1..], t.posts, t.seen + {l.chain, r.chain}, t.lows[t.nextId := LowOf(r.chain)], t.nextId + 1, t.nextVersion + 2)
    case MergeParent(i) =>
      var p' := Joined(p, t.parents[i + 1], t.nextVersion);
      t.(parents := t.parents[..i] + [p'] + t.parents[i + 2..], seen := t.seen + {p'.chain}, nextVersion := t.nextVersion + 1)
  }

  /** One parent over one child, as InitNodeLayout leaves them. */
  predicate Init(t: State)
  {
    && t.nextId == 2 && t.nextVersion == 1 && t.posts == {}
    && t.lows == map[0 := NegInf, 1 := NegInf]
    && t.parents == [Parent(0, 0, Base(NegInf, PosInf, [Sep(0, 1)]), [Kid(1, NegInf, Plain, false)])]
    && t.seen == {Base(NegInf, PosInf, [Sep(0, 1)])}
  }

  ghost predicate Run(steps: seq<Step>, states: seq<State>)
  {
    && |states| == |steps| + 1 && Init(states[0])
    && forall i :: 0 <= i < |steps| ==> Enabled(states[i], steps[i]) && states[i + 1] == After(states[i], steps[i])
  }

  // ------------------------------------------------------------------------------------
  // The invariant
  // ------------------------------------------------------------------------------------

  predicate SameBound(a: High, b: High)
  {
    if a.PosInf? then b.PosInf? else b.HighAt? && a.key == b.key
  }

  /** A new sibling that no parent lists yet. */
  ghost predicate Fresh(p: Parent, j: nat)
    requires j < |p.kids|
  {
    j > 0 && SepOf(p.kids[j]) !in Seps(p.chain)
  }

  predicate Inside(p: Parent, j: nat, k: int)
    requires j < |p.kids|
  {
    StrictlyAbove(k, p.kids[j].low) && BelowHigh(k, NextOf(p, j))
  }

  ghost predicate FreshOk(p: Parent, j: nat)
    requires j < |p.kids|
  {
    Fresh(p, j) ==>
      && p.kids[j].top.Plain? && p.kids[j - 1].top.SplitTop? && p.kids[j - 1].top.sep == SepOf(p.kids[j])
      && !p.kids[j - 1].finished && SameBound(p.kids[j - 1].top.next, NextOf(p, j))
  }

  ghost predicate TopOk(p: Parent, j: nat)
    requires j < |p.kids|
  {
    var kid := p.kids[j];
    && (kid.top.SplitTop? ==> NextOf(p, j).HighAt? && NextOf(p, j).key == kid.top.sep.key)
    && (kid.top.MergeTop? ==>
          Inside(p, j, kid.top.sep.key) && (Has(p.chain, kid.top.sep.key) ==> !kid.finished && SameBound(kid.top.next, NextOf(p, j))))
  }

  /** The parent lists nothing between the ends of a child except what an unfinished merge left there. */
  ghost predicate SepsOk(p: Parent, j: nat)
    requires j < |p.kids|
  {
    && (forall s :: s in Seps(p.chain) && Inside(p, j, s.key) ==> p.kids[j].top.MergeTop? && p.kids[j].top.sep == s)
    && (forall s :: s in Seps(p.chain) && j > 0 && s.key == SepOf(p.kids[j]).key ==> s == SepOf(p.kids[j]))
  }

  ghost predicate KidOk(p: Parent, j: nat)
  {
    j < |p.kids| && FreshOk(p, j) && TopOk(p, j) && SepsOk(p, j)
  }

  predicate Ordered(kids: seq<Kid>)
  {
    forall a, b :: 0 <= a < b < |kids| ==> kids[b].low.LowAt? && StrictlyAbove(kids[b].low.key, kids[a].low)
  }

  ghost predicate Framed(p: Parent)
  {
    && |p.kids| > 0 && p.kids[0].low == LowOf(p.chain) && p.kids[0].id == LowIdOf(p.chain) && Ordered(p.kids)
    && forall j :: 0 <= j < |p.kids| && p.kids[j].low.LowAt? ==> BelowHigh(p.kids[j].low.key, HighOf(p.chain))
  }

  ghost predicate KidsOk(p: Parent)
  {
    Framed(p) && forall j :: 0 <= j < |p.kids| ==> KidOk(p, j)
  }

  ghost predicate ChainOk(c: Inner, lows: map<NodeId, Low>)
  {
    WellFormed(c) && Exact(c) && Named(c, lows) && !c.Remove? && !c.Abort?
  }

  ghost predicate KidsNamed(kids: seq<Kid>, lows: map<NodeId, Low>)
  {
    forall j :: 0 <= j < |kids| ==> Names(lows, kids[j].id, kids[j].low)
  }

  ghost predicate Unseen(p: Parent, seen: set<Inner>)
  {
    forall j :: 0 <= j < |p.kids| && Fresh(p, j) ==> !Listed(seen, SepOf(p.kids[j]))
  }

  /** The chain is the index-term delta for the top of this child, and may still be installed. */
  ghost predicate Pending(p: Parent, j: nat, c: Inner)
  {
    && j < |p.kids| && (c.Insert? || c.Delete?)
    && var prevKey := if c.Delete? then c.prev.key else 0;
       Postable(p, p.kids[j], prevKey, c.loc) && c == Term(p.kids[j], prevKey, c.loc, p.chain)
  }

  ghost predicate PostOk(p: Parent, x: Post)
  {
    exists j :: 0 <= j < |p.kids| && p.kids[j].id == x.kid && Pending(p, j, x.chain)
  }

  ghost predicate PostsOk(p: Parent, posts: set<Post>)
  {
    forall x :: x in posts && x.version == p.version ==> PostOk(p, x)
  }

  ghost predicate ParentOk(p: Parent, lows: map<NodeId, Low>, seen: set<Inner>, posts: set<Post>, nextVersion: nat)
  {
    && ChainOk(p.chain, lows) && KidsOk(p) && KidsNamed(p.kids, lows) && Names(lows, p.id, LowOf(p.chain))
    && p.chain in seen && p.version < nextVersion && Unseen(p, seen) && PostsOk(p, posts)
  }

  /** One chain ends at or before the beginning of the other. */
  predicate Before(a: Inner, b: Inner)
  {
    LowOf(b).LowAt? && !BelowHigh(LowOf(b).key, HighOf(a))
  }

  ghost predicate Apart(p: Parent, q: Parent)
  {
    p.version != q.version && Before(p.chain, q.chain)
  }

  ghost predicate AllApart(parents: seq<Parent>)
  {
    forall a, b :: 0 <= a < b < |parents| ==> Apart(parents[a], parents[b])
  }

  ghost predicate Known(t: State)
  {
    && (forall id :: id in t.lows ==> id < t.nextId) && (forall x :: x in t.posts ==> x.version < t.nextVersion)
    && forall c, s :: c in t.seen && s in Seps(c) ==> s.id in t.lows
  }

  ghost predicate Inv(t: State)
  {
    && (forall i :: 0 <= i < |t.parents| ==> ParentOk(t.parents[i], t.lows, t.seen, t.posts, t.nextVersion))
    && AllApart(t.parents) && Known(t)
  }

  // ------------------------------------------------------------------------------------
  // What a child that may be operated on looks like
  // ------------------------------------------------------------------------------------

  ghost predicate Quiet(p: Parent, j: nat)
  {
    && j < |p.kids| && !Fresh(p, j) && (j + 1 < |p.kids| ==> !Fresh(p, j + 1))
    && forall s :: s in Seps(p.chain) ==> !Inside(p, j, s.key)
  }

  lemma FreeQuiet(p: Parent, j: nat, seen: set<Inner>)
    requires KidsOk(p) && Unseen(p, seen) && Free(p, j, seen)
    ensures Quiet(p, j)
  {
    hide Seps, LowOf, HighOf, LowIdOf, Framed, Listed;
    assert KidOk(p, j) && (j + 1 < |p.kids| ==> KidOk(p, j + 1));
  }

  lemma PendingNotQuiet(p: Parent, j: nat, c: Inner)
    requires KidsOk(p) && Pending(p, j, c)
    ensures !Quiet(p, j) && p.kids[j].top.sep.key == c.item.key && (p.kids[j].top.SplitTop? || p.kids[j].top.MergeTop?)
  {
    hide Seps, LowOf, HighOf, LowIdOf, Framed, Located;
    assert KidOk(p, j);
    if p.kids[j].top.SplitTop? {
      if j + 1 < |p.kids| { assert KidOk(p, j + 1); }
    }
  }
}
