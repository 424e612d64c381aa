/** Helping along never gets stuck: whatever delta a child has on top, there is something a thread can do
to finish it, and what the parent lists afterwards is what the delta asks for. */
module ParentFinish {
  import opened BwTypes
  import opened InnerChain
  import opened InnerSearch
  import opened ParentLevel
  import opened ParentKids
  import opened ParentTerms
  import opened ParentRuns

  /** There is a place for every key in the base where it would be found. */
  lemma {:induction false} PlaceFor(c: Inner, k: int) returns (loc: nat)
    requires InPlace(c, k)
    ensures Located(BaseFor(c, k), k, loc)
    decreases c
  {
    hide Located, WellFormed;
    InPlaceKind(c, k);
    if c.Base? {
      loc := PlaceInBase(c, k);
    } else if c.Merge? {
      MergeInPlace(c, k);
      loc := PlaceFor(if c.mergeKey <= k then c.right else c.child, k);
    } else {
      ChildInPlace(c, k);
      loc := PlaceFor(c.child, k);
    }
  }

  lemma PlaceInBase(c: Inner, k: int) returns (loc: nat)
    requires InPlace(c, k) && c.Base?
    ensures Located(c, k, loc)
  {
    InPlaceFormed(c, k);
    BaseOrdered(c);
    loc := LowerBoundFrom(c.items, k, 1);
    LowerBoundLocated(c, k, 1);
  }

  /** The steps may be taken one after the other, each with the parent as it is, and end in `t'`. */
  ghost predicate Goes(t: State, steps: seq<Step>, t': State)
    decreases |steps|
  {
    if steps == [] then t' == t
    else Enabled(t, steps[0]) && UpToDate(t, steps[0]) && Goes(After(t, steps[0]), steps[1..], t')
  }

  /** The delta of the child counts as finished now, and only the chain of the parent may have changed. */
  ghost predicate FinishedAt(t: State, i: nat, j: nat, t': State)
  {
    && i < |t.parents| == |t'.parents| && j < |t.parents[i].kids| == |t'.parents[i].kids|
    && t'.parents[i].kids[j] == t.parents[i].kids[j].(finished := true)
    && (forall n :: 0 <= n < |t.parents| && n != i ==> t'.parents[n] == t.parents[n])
    && LowOf(t'.parents[i].chain) == LowOf(t.parents[i].chain) && HighOf(t'.parents[i].chain) == HighOf(t.parents[i].chain)
  }

  lemma OneGoes(t: State, step: Step)
    requires Enabled(t, step) && UpToDate(t, step)
    ensures Goes(t, [step], After(t, step))
  {
    hide Enabled, After;
    assert [step][1..] == [];
    assert Goes(After(t, step), [], After(t, step));
  }

  lemma TwoGo(t: State, a: Step, b: Step)
    requires Enabled(t, a) && UpToDate(t, a) && Enabled(After(t, a), b) && UpToDate(After(t, a), b)
    ensures Goes(t, [a, b], After(After(t, a), b))
  {
    OneGoes(After(t, a), b);
    hide Enabled, After;
    assert [a, b][1..] == [b];
  }

  /** Posting: prepare and install, with nobody in between. */
  lemma PostGoes(t: State, i: nat, j: nat, prevKey: int, loc: nat) returns (steps: seq<Step>, t': State)
    requires i < |t.parents| && j < |t.parents[i].kids| && Postable(t.parents[i], t.parents[i].kids[j], prevKey, loc)
    ensures Goes(t, steps, t') && |t'.parents| == |t.parents| && forall n :: 0 <= n < |t.parents| && n != i ==> t'.parents[n] == t.parents[n]
    ensures var p, p' := t.parents[i], t'.parents[i];
            p'.chain == Term(p.kids[j], prevKey, loc, p.chain) && p'.kids == Marked(p.kids, p.kids[j].id)
  {
    var p := t.parents[i];
    var prepare := Prepare(i, j, prevKey, loc);
    var t1 := After(t, prepare);
    var x := Post(p.version, p.kids[j].id, Term(p.kids[j], prevKey, loc, p.chain));
    assert x in t1.posts && t1.parents == t.parents;
    var commit := Commit(i, x);
    t' := After(t1, commit);
    steps := [prepare, commit];
    hide Postable, Term, Marked, Goes;
    TwoGo(t, prepare, commit);
  }

  /** Marking: the parent has what the delta asks for. */
  lemma MarkGoes(t: State, i: nat, j: nat, step: Step) returns (t': State)
    requires i < |t.parents| && j < |t.parents[i].kids| && Enabled(t, step) && UpToDate(t, step)
    requires (step.Found? || step.Gone? || step.Beyond?) && step.i == i && step.j == j
    ensures Goes(t, [step], t') && FinishedAt(t, i, j, t') && t'.parents[i].chain == t.parents[i].chain
  {
    OneGoes(t, step);
    t' := After(t, step);
    hide Enabled, Goes, LowOf, HighOf;
  }

  lemma PostFinishes(t: State, i: nat, j: nat, t': State, prevKey: int, loc: nat)
    requires i < |t.parents| == |t'.parents| && j < |t.parents[i].kids| && forall n :: 0 <= n < |t.parents| && n != i ==> t'.parents[n] == t.parents[n]
    requires var p, p' := t.parents[i], t'.parents[i];
             && p'.chain == Term(p.kids[j], prevKey, loc, p.chain) && p'.kids == Marked(p.kids, p.kids[j].id)
             && (p.kids[j].top.SplitTop? || p.kids[j].top.MergeTop?)
    ensures FinishedAt(t, i, j, t')
    ensures var p, p' := t.parents[i], t'.parents[i];
            && (p.kids[j].top.SplitTop? ==> Seps(p'.chain) == Seps(p.chain) + {p.kids[j].top.sep})
            && (p.kids[j].top.MergeTop? ==> forall s :: s in Seps(p'.chain) <==> s in Seps(p.chain) && s.key != p.kids[j].top.sep.key)
  {
    DataEnds(t'.parents[i].chain);
    hide Seps, LowOf, HighOf;
  }

  // ------------------------------------------------------------------------------------
  // The sibling of a split stays next to it
  // ------------------------------------------------------------------------------------

  /** All children of the level, from left to right. */
  function Flat(parents: seq<Parent>): seq<Kid>
  {
    if parents == [] then [] else parents[0].kids + Flat(parents[1..])
  }

  lemma Regroup<X>(a: seq<X>, x: seq<X>, y: seq<X>, z: seq<X>, b: seq<X>)
    ensures a + (x + y + z) + b == (a + x) + y + (z + b)
    ensures a + (x + b) == a + x + b
  {
  }

  lemma FlatUnfolds(parents: seq<Parent>)
    ensures parents != [] ==> Flat(parents) == parents[0].kids + Flat(parents[1..])
    ensures parents == [] ==> Flat(parents) == []
  {
  }

  lemma FirstOfSum(a: seq<Parent>, b: seq<Parent>)
    ensures a == [] ==> a + b == b
    ensures a != [] ==> (a + b)[0] == a[0] && (a + b)[1..] == a[1..] + b
  {
  }

  lemma {:induction false} FlatTwo(a: seq<Parent>, b: seq<Parent>)
    ensures Flat(a + b) == Flat(a) + Flat(b)
  {
    hide Flat;
    FirstOfSum(a, b);
    FlatUnfolds(a);
    FlatUnfolds(a + b);
    if a == [] {
      Regroup<Kid>([], [], [], [], Flat(b));
    } else {
      FlatTwo(a[1..], b);
      Regroup(a[0].kids, Flat(a[1..]), [], [], Flat(b));
    }
  }

  lemma CutOut<X>(s: seq<X>, i: nat, x: X)
    requires i < |s|
    ensures s == s[..i] + ([s[i]] + s[i + 1..]) && s[i := x] == s[..i] + ([x] + s[i + 1..])
  {
  }

  lemma FlatAround(parents: seq<Parent>, i: nat, p: Parent)
    requires i < |parents|
    ensures Flat(parents) == Flat(parents[..i]) + parents[i].kids + Flat(parents[i + 1..])
    ensures Flat(parents[i := p]) == Flat(parents[..i]) + p.kids + Flat(parents[i + 1..])
  {
    hide Flat;
    FlatOne(parents[..i], parents[i], parents[i + 1..]);
    FlatOne(parents[..i], p, parents[i + 1..]);
    CutOut(parents, i, p);
  }

  lemma FlatOne(a: seq<Parent>, p: Parent, b: seq<Parent>)
    ensures Flat(a + ([p] + b)) == Flat(a) + p.kids + Flat(b)
  {
    hide Flat;
    FlatTwo(a, [p] + b);
    FlatUnfolds([p] + b);
    FirstOfSum([p], b);
    assert [p][1..] + b == b;
    Regroup(Flat(a), p.kids, [], [], Flat(b));
  }

  /** A child with a split delta on top has the sibling it was split into at its right. */
  ghost predicate Followed(ks: seq<Kid>)
  {
    forall n :: 0 <= n < |ks| && ks[n].top.SplitTop? ==> FollowedAt(ks, n)
  }

  ghost predicate FollowedAt(ks: seq<Kid>, n: nat)
  {
    n + 1 < |ks| && ks[n].top.SplitTop? && ks[n].top.sep == SepOf(ks[n + 1])
  }

  /** The same children, each with the same top or none of a split. */
  lemma SameFollowed(a: seq<Kid>, ks: seq<Kid>, ks': seq<Kid>, b: seq<Kid>)
    requires Followed(a + ks + b) && |ks'| == |ks|
    requires forall n :: 0 <= n < |ks| ==> ks'[n].id == ks[n].id && ks'[n].low == ks[n].low && (ks'[n].top == ks[n].top || !ks'[n].top.SplitTop?)
    ensures Followed(a + ks' + b)
  {
    var s, s' := a + ks + b, a + ks' + b;
    assert forall n :: 0 <= n < |s| ==> s'[n].id == s[n].id && s'[n].low == s[n].low && (s'[n].top == s[n].top || !s'[n].top.SplitTop?);
    forall n | 0 <= n < |s'| && s'[n].top.SplitTop?
      ensures FollowedAt(s', n)
    {
      assert FollowedAt(s, n);
    }
  }

  lemma SplitFollowed(a: seq<Kid>, k: Kid, b: seq<Kid>, s: Sep, next: High)
    requires Followed(a + [k] + b)
    ensures Followed(a + [k.(top := SplitTop(s, next), finished := false), Kid(s.id, LowAt(s.key), Plain, false)] + b)
  {
    var was := a + [k] + b;
    var new' := a + [k.(top := SplitTop(s, next), finished := false), Kid(s.id, LowAt(s.key), Plain, false)] + b;
    forall n | 0 <= n < |new'| && new'[n].top.SplitTop?
      ensures FollowedAt(new', n)
    {
      if n < |a| {
        assert was[n] == new'[n] && FollowedAt(was, n);
        assert SepOf(was[n + 1]) == SepOf(new'[n + 1]);
      } else if n > |a| + 1 {
        assert was[n - 1] == new'[n] && FollowedAt(was, n - 1);
        assert was[n - 1 + 1] == new'[n + 1];
      }
    }
  }

  lemma MergeFollowed(a: seq<Kid>, k: Kid, r: Kid, b: seq<Kid>, s: Sep, next: High)
    requires Followed(a + [k, r] + b)
    ensures Followed(a + [k.(top := MergeTop(s, next), finished := false)] + b)
  {
    var was, new' := a + [k, r] + b, a + [k.(top := MergeTop(s, next), finished := false)] + b;
    forall n | 0 <= n < |new'| && new'[n].top.SplitTop?
      ensures FollowedAt(new', n)
    {
      if n < |a| {
        assert was[n] == new'[n] && FollowedAt(was, n);
        assert SepOf(was[n + 1]) == SepOf(new'[n + 1]);
      } else {
        assert was[n + 1] == new'[n] && FollowedAt(was, n + 1);
        assert was[n + 2] == new'[n + 1];
      }
    }
  }

  lemma ReplaceFollowed(t: State, i: nat, p: Parent)
    requires i < |t.parents| && Followed(Flat(t.parents))
    requires var ks := t.parents[i].kids;
             |p.kids| == |ks| && forall n :: 0 <= n < |ks| ==> p.kids[n].id == ks[n].id && p.kids[n].low == ks[n].low && (p.kids[n].top == ks[n].top || !p.kids[n].top.SplitTop?)
    ensures Followed(Flat(t.parents[i := p]))
  {
    FlatAround(t.parents, i, p);
    hide Flat, Followed;
    SameFollowed(Flat(t.parents[..i]), t.parents[i].kids, p.kids, Flat(t.parents[i + 1..]));
  }

  lemma KidSplitFollowed(t: State, i: nat, j: nat, s: Sep)
    requires i < |t.parents| && j < |t.parents[i].kids| && Followed(Flat(t.parents))
    ensures Followed(Flat(t.parents[i := KidSplit(t.parents[i], j, s)]))
  {
    hide *;
    var p, p' := t.parents[i], KidSplit(t.parents[i], j, s);
    FlatAround(t.parents, i, p');
    var a, b, x, z := Flat(t.parents[..i]), Flat(t.parents[i + 1..]), p.kids[..j], p.kids[j + 1..];
    var k' := p.kids[j].(top := SplitTop(s, NextOf(p, j)), finished := false);
    KidsAround(p, j, s);
    Regroup(a, x, [p.kids[j]], z, b);
    SplitFollowed(a + x, p.kids[j], z + b, s, NextOf(p, j));
    Regroup(a, x, [k', Kid(s.id, LowAt(s.key), Plain, false)], z, b);
  }

  lemma KidsAround(p: Parent, j: nat, s: Sep)
    requires j < |p.kids|
    ensures p.kids == p.kids[..j] + [p.kids[j]] + p.kids[j + 1..]
    ensures KidSplit(p, j, s).kids == p.kids[..j] + [p.kids[j].(top := SplitTop(s, NextOf(p, j)), finished := false), Kid(s.id, LowAt(s.key), Plain, false)] + p.kids[j + 1..]
    ensures j + 1 < |p.kids| ==> p.kids == p.kids[..j] + [p.kids[j], p.kids[j + 1]] + p.kids[j + 2..]
    ensures j + 1 < |p.kids| ==> KidMerged(p, j).kids == p.kids[..j] + [p.kids[j].(top := MergeTop(SepOf(p.kids[j + 1]), NextOf(p, j + 1)), finished := false)] + p.kids[j + 2..]
  {
    hide NextOf, SepOf;
  }

  lemma KidMergedFollowed(t: State, i: nat, j: nat)
    requires i < |t.parents| && j + 1 < |t.parents[i].kids| && Followed(Flat(t.parents))
    ensures Followed(Flat(t.parents[i := KidMerged(t.parents[i], j)]))
  {
    hide *;
    var p, p' := t.parents[i], KidMerged(t.parents[i], j);
    FlatAround(t.parents, i, p');
    var a, b, x, z := Flat(t.parents[..i]), Flat(t.parents[i + 1..]), p.kids[..j], p.kids[j + 2..];
    var k' := p.kids[j].(top := MergeTop(SepOf(p.kids[j + 1]), NextOf(p, j + 1)), finished := false);
    KidsAround(p, j, Sep(0, 0));
    Regroup(a, x, [p.kids[j], p.kids[j + 1]], z, b);
    MergeFollowed(a + x, p.kids[j], p.kids[j + 1], z + b, SepOf(p.kids[j + 1]), NextOf(p, j + 1));
    Regroup(a, x, [k'], z, b);
  }

  /** Splitting and merging parents leaves the children as they are. */
  lemma SplitFlat(parents: seq<Parent>, i: nat, l: Parent, r: Parent)
    requires i < |parents| && l.kids + r.kids == parents[i].kids
    ensures Flat(parents[..i] + [l, r] + parents[i + 1..]) == Flat(parents)
  {
    hide Flat;
    var a, b := parents[..i], parents[i + 1..];
    FlatAround(parents, i, l);
    TwoInFront(a, l, r, b);
    FlatOne(a, l, [r] + b);
    FlatOne([], r, b);
    FlatUnfolds([]);
    FirstOfSum([], [r] + b);
    Regroup(Flat(a), l.kids, r.kids, [], Flat(b));
  }

  lemma TwoInFront<X>(a: seq<X>, l: X, r: X, b: seq<X>)
    ensures a + [l, r] + b == a + ([l] + ([r] + b))
    ensures a + [l] + b == a + ([l] + b)
  {
  }

  lemma MergeFlat(parents: seq<Parent>, i: nat, l: Parent)
    requires i + 1 < |parents| && l.kids == parents[i].kids + parents[i + 1].kids
    ensures Flat(parents[..i] + [l] + parents[i + 2..]) == Flat(parents)
  {
    hide *;
    TwoAt(parents, i, l);
    UnitedFlat(parents[..i], parents[i], parents[i + 1], parents[i + 2..], l);
  }

  lemma TwoAt<X>(s: seq<X>, i: nat, l: X)
    requires i + 1 < |s|
    ensures s == s[..i] + ([s[i]] + ([s[i + 1]] + s[i + 2..])) && s[..i] + [l] + s[i + 2..] == s[..i] + ([l] + s[i + 2..])
  {
  }

  lemma UnitedFlat(a: seq<Parent>, p: Parent, q: Parent, b: seq<Parent>, l: Parent)
    requires l.kids == p.kids + q.kids
    ensures Flat(a + ([l] + b)) == Flat(a + ([p] + ([q] + b)))
  {
    hide *;
    FlatOne(a, l, b);
    FlatOne(a, p, [q] + b);
    FlatOne([], q, b);
    FlatUnfolds([]);
    FirstOfSum([], [q] + b);
    Regroup(Flat(a), p.kids, q.kids, [], Flat(b));
  }

  lemma StepFollowed(t: State, step: Step)
    requires Enabled(t, step) && Followed(Flat(t.parents))
    ensures Followed(Flat(After(t, step).parents))
  {
    hide Flat, Followed, Free, Postable, Seps, HighOf, LowOf, WellFormed, Located, Term, Has;
    var i := step.i;
    var p := t.parents[i];
    match step
    case SplitKid(_, j, key) =>
      KidOfFree(p, j, t.seen);
      KidSplitFollowed(t, i, j, Sep(key, t.nextId));
    case MergeKid(_, j) =>
      KidOfFree(p, j, t.seen);
      KidMergedFollowed(t, i, j);
    case SplitParent(_, m, count) =>
      SplitFlat(t.parents, i, LeftHalf(p, m, count, t.nextId, t.nextVersion), RightHalf(p, m, count, t.nextId, t.nextVersion + 1));
    case MergeParent(_) =>
      MergeFlat(t.parents, i, Joined(p, t.parents[i + 1], t.nextVersion));
    case Prepare(_, _, _, _) =>
    case Work(_, j) =>
      KidOfFree(p, j, t.seen);
      ReplaceFollowed(t, i, After(t, step).parents[i]);
    case RemoveKid(_, j) =>
      KidOfFree(p, j, t.seen);
      ReplaceFollowed(t, i, After(t, step).parents[i]);
    case _ =>
      ReplaceFollowed(t, i, After(t, step).parents[i]);
  }

  lemma KidOfFree(p: Parent, j: nat, seen: set<Inner>)
    requires Free(p, j, seen)
    ensures j < |p.kids|
  {
  }

  lemma {:induction false} RunFollowed(steps: seq<Step>, states: seq<State>, n: nat)
    requires Run(steps, states) && n <= |steps|
    ensures Followed(Flat(states[n].parents))
  {
    if n == 0 {
      FlatOne([], states[0].parents[0], []);
      assert [] + ([states[0].parents[0]] + []) == states[0].parents;
    } else {
      RunFollowed(steps, states, n - 1);
      hide Flat, Followed, Enabled, After;
      StepFollowed(states[n - 1], steps[n - 1]);
    }
  }

  /** So the parent does not list another node where the sibling begins. */
  lemma FollowedSep(p: Parent, parents: seq<Parent>, i: nat, j: nat)
    requires i < |parents| && parents[i] == p && Followed(Flat(parents)) && KidsOk(p) && j < |p.kids| && p.kids[j].top.SplitTop?
    ensures j + 1 < |p.kids| ==> forall s :: s in Seps(p.chain) && s.key == p.kids[j].top.sep.key ==> s == p.kids[j].top.sep
  {
    FlatAround(parents, i, p);
    var a, ks := Flat(parents[..i]), Flat(parents);
    hide Flat;
    assert ks[|a| + j] == p.kids[j] && FollowedAt(ks, |a| + j);
    if j + 1 < |p.kids| {
      assert ks[|a| + j + 1] == p.kids[j + 1];
      KidsOkAt(p, j + 1);
      hide Seps, KidsOk, TopOk, FreshOk;
    }
  }

  // ------------------------------------------------------------------------------------
  // Finishing
  // ------------------------------------------------------------------------------------

  /** A split of a child can be finished: its separator is there, or it is posted, or it lies behind the
      parent.  Afterwards the parent lists it if and only if it is within its range. */
  lemma SplitFinishes(t: State, i: nat, j: nat) returns (steps: seq<Step>, t': State)
    requires Inv(t) && i < |t.parents| && j < |t.parents[i].kids| && t.parents[i].kids[j].top.SplitTop?
    requires Followed(Flat(t.parents))
    ensures Goes(t, steps, t') && FinishedAt(t, i, j, t')
    ensures var p, p', sep := t.parents[i], t'.parents[i], t.parents[i].kids[j].top.sep;
            Seps(p'.chain) == Seps(p.chain) + (if BelowHigh(sep.key, HighOf(p.chain)) then {sep} else {})
  {
    hide *;
    InvAt(t, i);
    var p, sep := t.parents[i], t.parents[i].kids[j].top.sep;
    ParentParts(p, t.lows, t.seen, t.posts, t.nextVersion);
    SplitCases(p, j, t.lows);
    FollowedSep(p, t.parents, i, j);
    if sep in Seps(p.chain) {
      MayFind(t, i, j);
      t' := MarkGoes(t, i, j, Step.Found(i, j, p.chain));
      steps := [Step.Found(i, j, p.chain)];
    } else if j + 1 == |p.kids| {
      MayPass(t, i, j);
      t' := MarkGoes(t, i, j, Beyond(i, j, p.chain));
      steps := [Beyond(i, j, p.chain)];
    } else {
      var loc := PlaceFor(p.chain, sep.key);
      MayPost(p, j, 0, loc);
      steps, t' := PostGoes(t, i, j, 0, loc);
      PostFinishes(t, i, j, t', 0, loc);
    }
  }

  /** A merge into a child can be finished: the separator of the removed node is gone, or it is deleted. */
  lemma MergeFinishes(t: State, i: nat, j: nat) returns (steps: seq<Step>, t': State)
    requires Inv(t) && i < |t.parents| && j < |t.parents[i].kids| && t.parents[i].kids[j].top.MergeTop?
    ensures Goes(t, steps, t') && FinishedAt(t, i, j, t')
    ensures var p, p', sep := t.parents[i], t'.parents[i], t.parents[i].kids[j].top.sep;
            forall s :: s in Seps(p'.chain) <==> s in Seps(p.chain) && s.key != sep.key
  {
    hide *;
    InvAt(t, i);
    var p, sep := t.parents[i], t.parents[i].kids[j].top.sep;
    ParentParts(p, t.lows, t.seen, t.posts, t.nextVersion);
    MergeCases(p, j, t.lows);
    HasIs(p.chain, sep.key);
    if Has(p.chain, sep.key) {
      var loc := PlaceFor(p.chain, sep.key);
      var prevKey := if p.kids[j].low.LowAt? then p.kids[j].low.key else 0;
      MayPost(p, j, prevKey, loc);
      steps, t' := PostGoes(t, i, j, prevKey, loc);
      PostFinishes(t, i, j, t', prevKey, loc);
    } else {
      MayDismiss(t, i, j);
      t' := MarkGoes(t, i, j, Gone(i, j));
      steps := [Gone(i, j)];
    }
  }

  lemma HasIs(c: Inner, k: int)
    ensures Has(c, k) <==> exists s :: s in Seps(c) && s.key == k
  {
    hide Seps;
  }

  lemma SplitCases(p: Parent, j: nat, lows: map<NodeId, Low>)
    requires KidsOk(p) && ChainOk(p.chain, lows) && j < |p.kids| && p.kids[j].top.SplitTop?
    ensures j + 1 < |p.kids| <==> BelowHigh(p.kids[j].top.sep.key, HighOf(p.chain))
    ensures j + 1 < |p.kids| ==> InPlace(p.chain, p.kids[j].top.sep.key)
    ensures p.kids[j].low.LowAt? ==> InRange(p.kids[j].low.key, LowOf(p.chain), HighOf(p.chain))
    ensures p.kids[j].low.NegInf? ==> LowOf(p.chain).NegInf?
    ensures p.kids[j].top.sep in Seps(p.chain) ==> BelowHigh(p.kids[j].top.sep.key, HighOf(p.chain))
  {
    KidsOkAt(p, j);
    KidsFramed(p);
    if j + 1 < |p.kids| { SepAbove(p, j + 1); }
    if j > 0 { SepAbove(p, j); }
    if p.kids[j].top.sep in Seps(p.chain) { SepsInRange(p.chain, p.kids[j].top.sep) by { hide Exact, Named, KidsOk; } }
    hide Seps, LowOf, HighOf, LowIdOf, KidsOk, WellFormed, Exact, Named, FreshOk, SepsOk;
  }

  lemma MergeCases(p: Parent, j: nat, lows: map<NodeId, Low>)
    requires KidsOk(p) && ChainOk(p.chain, lows) && j < |p.kids| && p.kids[j].top.MergeTop?
    ensures InPlace(p.chain, p.kids[j].top.sep.key) && BelowHigh(p.kids[j].top.sep.key, HighOf(p.chain))
  {
    KidsOkAt(p, j);
    KidsFramed(p);
    if j + 1 < |p.kids| { SepAbove(p, j + 1); }
    if j > 0 { SepAbove(p, j); }
    hide Seps, LowOf, HighOf, LowIdOf, KidsOk, WellFormed, Exact, Named, FreshOk, SepsOk, Has;
  }

  lemma MayFind(t: State, i: nat, j: nat)
    requires i < |t.parents| && j < |t.parents[i].kids| && t.parents[i].chain in t.seen
    requires t.parents[i].kids[j].top.SplitTop? && t.parents[i].kids[j].top.sep in Seps(t.parents[i].chain)
    ensures Enabled(t, Step.Found(i, j, t.parents[i].chain)) && UpToDate(t, Step.Found(i, j, t.parents[i].chain))
  {
    hide Seps;
  }

  lemma MayPass(t: State, i: nat, j: nat)
    requires i < |t.parents| && j < |t.parents[i].kids| && t.parents[i].chain in t.seen && t.parents[i].kids[j].top.SplitTop?
    requires var p := t.parents[i];
             && !BelowHigh(p.kids[j].top.sep.key, HighOf(p.chain))
             && (p.kids[j].low.LowAt? ==> InRange(p.kids[j].low.key, LowOf(p.chain), HighOf(p.chain))) && (p.kids[j].low.NegInf? ==> LowOf(p.chain).NegInf?)
    ensures Enabled(t, Beyond(i, j, t.parents[i].chain)) && UpToDate(t, Beyond(i, j, t.parents[i].chain))
  {
    hide HighOf, LowOf;
  }

  lemma MayDismiss(t: State, i: nat, j: nat)
    requires i < |t.parents| && j < |t.parents[i].kids| && t.parents[i].kids[j].top.MergeTop? && !Has(t.parents[i].chain, t.parents[i].kids[j].top.sep.key)
    ensures Enabled(t, Gone(i, j)) && UpToDate(t, Gone(i, j))
  {
    hide Has;
  }

  lemma MayPost(p: Parent, j: nat, prevKey: int, loc: nat)
    requires j < |p.kids| && (p.kids[j].top.SplitTop? || p.kids[j].top.MergeTop?)
    requires BelowHigh(p.kids[j].top.sep.key, HighOf(p.chain)) && Located(BaseFor(p.chain, p.kids[j].top.sep.key), p.kids[j].top.sep.key, loc)
    requires (exists s :: s in Seps(p.chain) && s.key == p.kids[j].top.sep.key) <==> p.kids[j].top.MergeTop?
    requires p.kids[j].top.MergeTop? && p.kids[j].low.LowAt? ==> p.kids[j].low.key == prevKey
    ensures Postable(p, p.kids[j], prevKey, loc)
  {
    HasIs(p.chain, p.kids[j].top.sep.key);
    hide HighOf, Located, BaseFor, Has, Seps;
  }

  /** In every run in which split keys are compared with the current parent, at any moment and for any
      child with a split or merge delta on top, there are steps that finish the delta. */
  lemma EveryRunFinishes(steps: seq<Step>, states: seq<State>, i: nat, j: nat) returns (more: seq<Step>, t': State)
    requires Run(steps, states) && forall n :: 0 <= n < |steps| ==> UpToDate(states[n], steps[n])
    requires i < |states[|steps|].parents| && j < |states[|steps|].parents[i].kids|
    requires var top := states[|steps|].parents[i].kids[j].top; top.SplitTop? || top.MergeTop?
    ensures |states| == |steps| + 1 && Goes(states[|steps|], more, t') && FinishedAt(states[|steps|], i, j, t')
    ensures var p, p' := states[|steps|].parents[i], t'.parents[i]; var top := p.kids[j].top;
            && (top.SplitTop? ==> Seps(p'.chain) == Seps(p.chain) + (if BelowHigh(top.sep.key, HighOf(p.chain)) then {top.sep} else {}))
            && (top.MergeTop? ==> forall s :: s in Seps(p'.chain) <==> s in Seps(p.chain) && s.key != top.sep.key)
  {
    RunKeeps(steps, states, |steps|);
    RunFollowed(steps, states, |steps|);
    hide Inv, Flat, Followed, Seps, HighOf, Goes, FinishedAt;
    if states[|steps|].parents[i].kids[j].top.SplitTop? {
      more, t' := SplitFinishes(states[|steps|], i, j);
    } else {
      more, t' := MergeFinishes(states[|steps|], i, j);
    }
  }
}
