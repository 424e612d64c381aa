/** A bounds check against an old parent.

FinishPartialSMO takes a split key at or above the high key of the thread's snapshot of the parent as a
sign that the index term has been posted.  The snapshot may be older than a merge that extended the
parent.  The thread then goes on, the split delta disappears under its own delta, and the parent never
lists the new sibling.  The run shown here has nodes of the sizes at which they split and merge. */
module ParentEarly {
  import opened BwTypes
  import opened InnerChain
  import opened InnerSearch
  import opened ParentLevel
  import InnerAgree

  // ------------------------------------------------------------------------------------
  // Runs in pieces
  // ------------------------------------------------------------------------------------

  /** Enabled steps from one state to another, none of them a bounds check on the parent. */
  ghost predicate Path(t: State, steps: seq<Step>, t': State)
    decreases |steps|
  {
    if steps == [] then t' == t else !steps[0].Beyond? && Enabled(t, steps[0]) && Path(After(t, steps[0]), steps[1..], t')
  }

  lemma PathOne(t: State, step: Step)
    requires Enabled(t, step) && !step.Beyond?
    ensures Path(t, [step], After(t, step))
  {
    hide Enabled, After;
    assert [step][1..] == [];
  }

  lemma {:induction false} PathOn(t: State, steps: seq<Step>, t1: State, more: seq<Step>, t2: State)
    requires Path(t, steps, t1) && Path(t1, more, t2)
    ensures Path(t, steps + more, t2)
    decreases |steps|
  {
    hide Enabled, After;
    if steps == [] {
      assert steps + more == more;
    } else {
      PathOn(After(t, steps[0]), steps[1..], t1, more, t2);
      assert (steps + more)[1..] == steps[1..] + more;
    }
  }

  /** A run that has come to a state. */
  ghost predicate Ends(steps: seq<Step>, states: seq<State>, t: State)
  {
    Run(steps, states) && states[|steps|] == t
  }

  lemma {:induction false} RunOn(steps: seq<Step>, states: seq<State>, t: State, more: seq<Step>, t': State)
    returns (steps': seq<Step>, states': seq<State>)
    requires Ends(steps, states, t) && Path(t, more, t')
    ensures Ends(steps', states', t') && steps <= steps' && states <= states'
    ensures forall n :: |steps| <= n < |steps'| ==> !steps'[n].Beyond?
    decreases |more|
  {
    hide Enabled, After, Init;
    if more == [] {
      return steps, states;
    }
    var steps1, states1 := StepOn(steps, states, t, more[0]);
    steps', states' := RunOn(steps1, states1, After(t, more[0]), more[1..], t');
  }

  lemma StepOn(steps: seq<Step>, states: seq<State>, t: State, step: Step) returns (steps': seq<Step>, states': seq<State>)
    requires Ends(steps, states, t) && Enabled(t, step)
    ensures Ends(steps', states', After(t, step)) && steps' == steps + [step] && states' == states + [After(t, step)]
  {
    hide Enabled, After, Init;
    steps', states' := steps + [step], states + [After(t, step)];
  }

  // ------------------------------------------------------------------------------------
  // Rounds of the help-along protocol
  // ------------------------------------------------------------------------------------

  /** A parent with these children around one of them, and this chain. */
  ghost predicate Around(t: State, i: nat, a: seq<Kid>, k: Kid, b: seq<Kid>, c: Inner)
  {
    i < |t.parents| && t.parents[i].kids == a + [k] + b && t.parents[i].chain == c && c in t.seen
  }

  /** What steps on one parent leave alone. */
  ghost predicate Aside(t: State, i: nat, t': State)
  {
    && |t'.parents| == |t.parents| && t.seen <= t'.seen
    && forall n :: 0 <= n < |t.parents| ==> t'.parents[n].id == t.parents[n].id && (n != i ==> t'.parents[n] == t.parents[n])
  }

  lemma AsideTwice(t: State, i: nat, t1: State, t2: State)
    requires Aside(t, i, t1) && Aside(t1, i, t2)
    ensures Aside(t, i, t2)
  {
  }

  /** The high key pair behind a child. */
  function Behind1(b: seq<Kid>, c: Inner): High
  {
    if b == [] then HighOf(c) else HighAt(SepOf(b[0]).key, b[0].id)
  }

  predicate Alone(a: seq<Kid>, k: Kid, b: seq<Kid>)
  {
    (forall x :: x in a ==> x.id != k.id) && (forall x :: x in b ==> x.id != k.id)
  }

  /** The child can be operated on: nothing is unfinished on it, nor on its left neighbour. */
  predicate Ready(a: seq<Kid>, k: Kid)
  {
    Finished(k) && (a == [] || a[|a| - 1].top.Plain?)
  }

  lemma ReadyFree(p: Parent, a: seq<Kid>, k: Kid, b: seq<Kid>, seen: set<Inner>)
    requires p.kids == a + [k] + b && Ready(a, k)
    ensures Free(p, |a|, seen) && p.kids[|a|] == k && NextOf(p, |a|) == Behind1(b, p.chain)
  {
    hide HighOf, Listed;
  }

  lemma MarkedOne(a: seq<Kid>, k: Kid, b: seq<Kid>)
    requires Alone(a, k, b)
    ensures Marked(a + [k] + b, k.id) == a + [k.(finished := true)] + b
  {
    var kids := a + [k] + b;
    forall n | 0 <= n < |kids| && n != |a|
      ensures kids[n].id != k.id
    {
      if n < |a| { assert kids[n] in a; } else { assert kids[n] == b[n - |a| - 1]; }
    }
  }

  lemma AroundIs(a: seq<Kid>, k: Kid, b: seq<Kid>)
    ensures var kids := a + [k] + b; |a| < |kids| && kids[|a|] == k && kids[..|a|] == a && kids[|a| + 1..] == b
    ensures forall x: Kid :: (a + [k] + b)[|a| := x] == a + [x] + b
  {
  }

  /** Splits a child. */
  lemma SplitRound(t: State, i: nat, a: seq<Kid>, k: Kid, b: seq<Kid>, c: Inner, key: int) returns (t': State, k': Kid, s: Kid)
    requires Around(t, i, a, k, b, c) && Ready(a, k) && StrictlyAbove(key, k.low) && BelowHigh(key, Behind1(b, c))
    ensures Path(t, [SplitKid(i, |a|, key)], t') && Aside(t, i, t') && t'.nextId == t.nextId + 1
    ensures s == Kid(t.nextId, LowAt(key), Plain, false) && k' == k.(top := SplitTop(Sep(key, t.nextId), Behind1(b, c)), finished := false)
    ensures Around(t', i, a, k', [s] + b, c)
  {
    hide HighOf, Free;
    var p := t.parents[i];
    ReadyFree(p, a, k, b, t.seen);
    AroundIs(a, k, b);
    var step := SplitKid(i, |a|, key);
    assert Enabled(t, step);
    k', s := k.(top := SplitTop(Sep(key, t.nextId), Behind1(b, c)), finished := false), Kid(t.nextId, LowAt(key), Plain, false);
    t' := After(t, step);
    assert t'.parents[i].kids == a + [k'] + ([s] + b);
    PathOne(t, step);
  }

  /** Prepares and installs the index-term delta for a child. */
  lemma PostRound(t: State, i: nat, a: seq<Kid>, k: Kid, b: seq<Kid>, c: Inner, prevKey: int, loc: nat) returns (steps: seq<Step>, t': State)
    requires Around(t, i, a, k, b, c) && Postable(t.parents[i], k, prevKey, loc) && Alone(a, k, b)
    ensures Path(t, steps, t') && Aside(t, i, t') && t'.nextId == t.nextId
    ensures Around(t', i, a, k.(finished := true), b, Term(k, prevKey, loc, c))
  {
    hide Postable, Term;
    var p := t.parents[i];
    AroundIs(a, k, b);
    MarkedOne(a, k, b);
    var prepare := Prepare(i, |a|, prevKey, loc);
    var t1 := After(t, prepare);
    var x := Post(p.version, k.id, Term(k, prevKey, loc, c));
    assert x in t1.posts && t1.parents == t.parents;
    var commit := Commit(i, x);
    t' := After(t1, commit);
    PathOne(t, prepare);
    PathOne(t1, commit);
    hide Enabled, After;
    PathOn(t, [prepare], t1, [commit], t');
    steps := [prepare] + [commit];
  }

  /** Consolidates the child, and then the parent. */
  lemma TidyRound(t: State, i: nat, a: seq<Kid>, k: Kid, b: seq<Kid>, c: Inner, base: Inner) returns (steps: seq<Step>, t': State)
    requires Around(t, i, a, k, b, c) && Ready(a, k)
    requires base.Base? && base.low == LowOf(c) && base.high == HighOf(c) && WellFormed(base) && Seps(base) == Seps(c) && LowIdOf(base) == LowIdOf(c)
    ensures Path(t, steps, t') && Aside(t, i, t') && t'.nextId == t.nextId
    ensures Around(t', i, a, k.(top := Plain, finished := false), b, base)
  {
    hide HighOf, LowOf, LowIdOf, WellFormed, Seps, Free;
    var p := t.parents[i];
    ReadyFree(p, a, k, b, t.seen);
    AroundIs(a, k, b);
    var work, consolidate := Work(i, |a|), ConsolidateParent(i, base);
    var t1 := After(t, work);
    assert t1.parents[i] == p.(kids := a + [k.(top := Plain, finished := false)] + b);
    t' := After(t1, consolidate);
    PathOne(t, work);
    PathOne(t1, consolidate);
    hide Enabled, After;
    PathOn(t, [work], t1, [consolidate], t');
    steps := [work] + [consolidate];
  }

  lemma RemoveKidRound(t: State, i: nat, a: seq<Kid>, r: Kid, b: seq<Kid>, c: Inner) returns (t': State)
    requires Around(t, i, a, r, b, c) && Ready(a, r) && a != []
    ensures Path(t, [RemoveKid(i, |a|)], t') && Aside(t, i, t') && t'.nextId == t.nextId
    ensures Around(t', i, a, r.(top := RemoveTop, finished := false), b, c)
  {
    hide HighOf, Free;
    ReadyFree(t.parents[i], a, r, b, t.seen);
    AroundIs(a, r, b);
    var remove := RemoveKid(i, |a|);
    t' := After(t, remove);
    PathOne(t, remove);
  }

  lemma MergeKidRound(t: State, i: nat, a: seq<Kid>, k: Kid, r: Kid, b: seq<Kid>, c: Inner) returns (t': State, k': Kid)
    requires Around(t, i, a, k, [r] + b, c) && Ready(a, k) && r.top.RemoveTop?
    ensures Path(t, [MergeKid(i, |a|)], t') && Aside(t, i, t') && t'.nextId == t.nextId
    ensures k' == k.(top := MergeTop(SepOf(r), Behind1(b, c)), finished := false) && Around(t', i, a, k', b, c)
  {
    hide HighOf, Free;
    var p := t.parents[i];
    ReadyFree(p, a, k, [r] + b, t.seen);
    AroundIs(a, k, [r] + b);
    NextOne(p, a, k, r, b);
    hide NextOf, Behind1;
    var merge := MergeKid(i, |a|);
    t' := After(t, merge);
    k' := k.(top := MergeTop(SepOf(r), Behind1(b, c)), finished := false);
    assert t'.parents[i].kids == a + [k'] + b;
    PathOne(t, merge);
  }

  lemma NextOne(p: Parent, a: seq<Kid>, k: Kid, r: Kid, b: seq<Kid>)
    requires p.kids == a + [k] + ([r] + b)
    ensures |a| + 1 < |p.kids| && p.kids[|a| + 1] == r && p.kids[|a| + 2..] == b && NextOf(p, |a| + 1) == Behind1(b, p.chain)
  {
    hide HighOf;
  }

  /** Removes a child and merges it into its left neighbour. */
  lemma MergeRound(t: State, i: nat, a: seq<Kid>, k: Kid, r: Kid, b: seq<Kid>, c: Inner) returns (steps: seq<Step>, t': State, k': Kid)
    requires Around(t, i, a, k, [r] + b, c) && Ready(a, k) && k.top.Plain? && r.top.Plain?
    ensures Path(t, steps, t') && Aside(t, i, t') && t'.nextId == t.nextId
    ensures k' == k.(top := MergeTop(SepOf(r), Behind1(b, c)), finished := false) && Around(t', i, a, k', b, c)
  {
    assert a + [k] + ([r] + b) == (a + [k]) + [r] + b;
    var t1 := RemoveKidRound(t, i, a + [k], r, b, c);
    var r1 := r.(top := RemoveTop, finished := false);
    assert (a + [k]) + [r1] + b == a + [k] + ([r1] + b);
    t', k' := MergeKidRound(t1, i, a, k, r1, b, c);
    AsideTwice(t, i, t1, t');
    hide *;
    PathOn(t, [RemoveKid(i, |a + [k]|)], t1, [MergeKid(i, |a|)], t');
    steps := [RemoveKid(i, |a + [k]|)] + [MergeKid(i, |a|)];
  }

  // ------------------------------------------------------------------------------------
  // A parent that grows and shrinks
  // ------------------------------------------------------------------------------------

  /** The children begin at the multiples of ten, the first one at the left end. */
  function ItemAt(j: nat): Sep { Sep(10 * j, j + 1) }

  function KidAt(j: nat): Kid { Kid(j + 1, if j == 0 then NegInf else LowAt(10 * j), Plain, false) }

  function Items(from: nat, n: nat): (l: seq<Sep>)
    ensures |l| == n && forall i :: 0 <= i < n ==> l[i] == ItemAt(from + i)
  {
    seq(n, i requires 0 <= i < n => ItemAt(from + i))
  }

  function Kids(from: nat, n: nat): (l: seq<Kid>)
    ensures |l| == n && forall i :: 0 <= i < n ==> l[i] == KidAt(from + i)
  {
    seq(n, i requires 0 <= i < n => KidAt(from + i))
  }

  function BaseOf(from: nat, n: nat): Inner
  {
    Base(if from == 0 then NegInf else LowAt(10 * from), PosInf, Items(from, n))
  }

  lemma BaseFormed(from: nat, n: nat)
    requires n > 0
    ensures WellFormed(BaseOf(from, n)) && LowIdOf(BaseOf(from, n)) == from + 1
  {
  }

  lemma MoreItems(from: nat, n: nat)
    requires n > 0
    ensures var s := ItemAt(from + n);
            && Behind(Items(from, n + 1), 1) == Behind(Items(from, n), 1) + {s} && !Has(BaseOf(from, n), s.key) && Has(BaseOf(from, n + 1), s.key)
            && Located(BaseOf(from, n), s.key, n) && Located(BaseOf(from, n + 1), s.key, n)
  {
    var s, l, l' := ItemAt(from + n), Items(from, n), Items(from, n + 1);
    forall x
      ensures x in Behind(l', 1) <==> x in Behind(l, 1) || x == s
    {
      if x in Behind(l', 1) {
        var i :| 1 <= i < n + 1 && l'[i] == x;
        assert i < n ==> l[i] == x;
      }
      if x in Behind(l, 1) {
        var i :| 1 <= i < n && l[i] == x;
        assert l'[i] == x;
      }
      assert l'[n] == s;
    }
    assert s in Behind(l', 1);
  }

  lemma MoreKids(from: nat, n: nat)
    ensures Kids(from, n + 1) == Kids(from, n) + [KidAt(from + n)]
    ensures forall x :: x in Kids(from, n) ==> from < x.id <= from + n && x.top.Plain?
  {
  }

  /** The parent lists the children from `from` on, and nothing is under way. */
  ghost predicate Holds(t: State, i: nat, from: nat, n: nat)
  {
    i < |t.parents| && t.parents[i].kids == Kids(from, n) && t.parents[i].chain == BaseOf(from, n) && BaseOf(from, n) in t.seen
  }

  lemma HoldsAround(t: State, i: nat, from: nat, n: nat)
    requires Holds(t, i, from, n + 1)
    ensures Around(t, i, Kids(from, n), KidAt(from + n), [], BaseOf(from, n + 1)) && Ready(Kids(from, n), KidAt(from + n))
  {
    MoreKids(from, n);
    assert Kids(from, n) + [KidAt(from + n)] + [] == Kids(from, n + 1);
  }

  lemma GrownChain(n: nat)
    ensures var c, s := BaseOf(0, n + 1), ItemAt(n + 1);
            var c' := Insert(s, PosInf, n + 1, c);
            && LowOf(c') == NegInf && HighOf(c) == PosInf && HighOf(c') == PosInf && LowIdOf(c') == LowIdOf(BaseOf(0, n + 2)) && Seps(c') == Seps(BaseOf(0, n + 2))
  {
    MoreItems(0, n + 1);
    BaseFormed(0, n + 1);
    BaseFormed(0, n + 2);
    hide Behind;
  }

  lemma ShrunkChain(from: nat, n: nat)
    requires from > 0
    ensures var c, s := BaseOf(from, n + 2), ItemAt(from + n + 1);
            var c' := Delete(s, ItemAt(from + n), PosInf, n + 1, c);
            && LowOf(c') == LowAt(10 * from) && HighOf(c) == PosInf && HighOf(c') == PosInf && LowIdOf(c') == LowIdOf(BaseOf(from, n + 1)) && Seps(c') == Seps(BaseOf(from, n + 1))
  {
    MoreItems(from, n + 1);
    BaseFormed(from, n + 1);
    BaseFormed(from, n + 2);
    var b, b' := Seps(BaseOf(from, n + 1)), Seps(BaseOf(from, n + 2));
    assert b' == b + {ItemAt(from + n + 1)};
    forall x | x in b
      ensures x.key != ItemAt(from + n + 1).key
    {
    }
    hide Behind;
  }

  /** The last child under its split delta. */
  function Splitting(n: nat): Kid { KidAt(n).(top := SplitTop(ItemAt(n + 1), PosInf)) }

  lemma SplittingIs(n: nat)
    ensures KidAt(n + 1) == Kid(n + 2, LowAt(10 * (n + 1)), Plain, false) && ItemAt(n + 1) == Sep(10 * (n + 1), n + 2)
    ensures Splitting(n) == KidAt(n).(top := SplitTop(Sep(10 * (n + 1), n + 2), PosInf), finished := false)
    ensures StrictlyAbove(10 * (n + 1), KidAt(n).low) && Behind1([], BaseOf(0, n + 1)) == PosInf && BelowHigh(10 * (n + 1), PosInf)
    ensures Term(Splitting(n), 0, n + 1, BaseOf(0, n + 1)) == Insert(ItemAt(n + 1), PosInf, n + 1, BaseOf(0, n + 1))
    ensures Splitting(n).(finished := true).(top := Plain, finished := false) == KidAt(n)
  {
  }

  lemma SplittingPostable(p: Parent, n: nat)
    requires p.chain == BaseOf(0, n + 1)
    ensures Postable(p, Splitting(n), 0, n + 1) && Alone(Kids(0, n), Splitting(n), [KidAt(n + 1)]) && Ready(Kids(0, n), Splitting(n).(finished := true))
  {
    MoreItems(0, n + 1);
    MoreKids(0, n);
    GrownChain(n);
    hide Located, Has, Items;
  }

  lemma GrowSplit(t: State, n: nat) returns (t': State)
    requires Holds(t, 0, 0, n + 1) && t.nextId == n + 2
    ensures Path(t, [SplitKid(0, n, 10 * (n + 1))], t') && Aside(t, 0, t') && t'.nextId == n + 3
    ensures Around(t', 0, Kids(0, n), Splitting(n), [KidAt(n + 1)], BaseOf(0, n + 1))
  {
    hide *;
    HoldsAround(t, 0, 0, n);
    SplittingIs(n);
    var k1, s;
    t', k1, s := SplitRound(t, 0, Kids(0, n), KidAt(0 + n), [], BaseOf(0, n + 1), 10 * (n + 1));
    assert [s] + [] == [s];
  }

  lemma GrowPost(t: State, n: nat) returns (steps: seq<Step>, t': State)
    requires Around(t, 0, Kids(0, n), Splitting(n), [KidAt(n + 1)], BaseOf(0, n + 1))
    ensures Path(t, steps, t') && Aside(t, 0, t') && Holds(t', 0, 0, n + 2) && t'.nextId == t.nextId
  {
    hide *;
    AroundChain(t, 0, Kids(0, n), Splitting(n), [KidAt(n + 1)], BaseOf(0, n + 1));
    SplittingPostable(t.parents[0], n);
    SplittingIs(n);
    GrownChain(n);
    BaseFormed(0, n + 2);
    BaseIs(0, n + 2);
    var c := Term(Splitting(n), 0, n + 1, BaseOf(0, n + 1));
    var post, t1 := PostRound(t, 0, Kids(0, n), Splitting(n), [KidAt(n + 1)], BaseOf(0, n + 1), 0, n + 1);
    var tidy, t2 := TidyRound(t1, 0, Kids(0, n), Splitting(n).(finished := true), [KidAt(n + 1)], c, BaseOf(0, n + 2));
    AroundHolds(t2, 0, 0, n);
    AsideTwice(t, 0, t1, t2);
    PathOn(t, post, t1, tidy, t2);
    steps, t' := post + tidy, t2;
  }

  lemma BaseIs(from: nat, n: nat)
    ensures BaseOf(from, n).Base? && BaseOf(from, n).high == PosInf && BaseOf(from, n).low == if from == 0 then NegInf else LowAt(10 * from)
  {
  }

  /** The last child is split, and the parent lists its sibling. */
  lemma GrowOnce(t: State, n: nat) returns (steps: seq<Step>, t': State)
    requires Holds(t, 0, 0, n + 1) && t.nextId == n + 2
    ensures Path(t, steps, t') && Aside(t, 0, t') && Holds(t', 0, 0, n + 2) && t'.nextId == n + 3
  {
    hide *;
    var t1 := GrowSplit(t, n);
    var post, t2 := GrowPost(t1, n);
    AsideTwice(t, 0, t1, t2);
    PathOn(t, [SplitKid(0, n, 10 * (n + 1))], t1, post, t2);
    steps, t' := [SplitKid(0, n, 10 * (n + 1))] + post, t2;
  }

  lemma AroundChain(t: State, i: nat, a: seq<Kid>, k: Kid, b: seq<Kid>, c: Inner)
    requires Around(t, i, a, k, b, c)
    ensures i < |t.parents| && t.parents[i].chain == c
  {
  }

  lemma AroundHolds(t: State, i: nat, from: nat, n: nat)
    requires Around(t, i, Kids(from, n), KidAt(from + n), [KidAt(from + n + 1)], BaseOf(from, n + 2))
    ensures Holds(t, i, from, n + 2)
  {
    MoreKids(from, n);
    MoreKids(from, n + 1);
  }

  /** The last child but one takes the last one in, and the parent no longer lists it. */
  lemma ShrinkOnce(t: State, i: nat, from: nat, n: nat) returns (steps: seq<Step>, t': State)
    requires Holds(t, i, from, n + 2) && from > 0
    ensures Path(t, steps, t') && Aside(t, i, t') && Holds(t', i, from, n + 1) && t'.nextId == t.nextId
  {
    MoreKids(from, n);
    MoreKids(from, n + 1);
    MoreItems(from, n + 1);
    ShrunkChain(from, n);
    BaseFormed(from, n + 1);
    var a, k, r, c := Kids(from, n), KidAt(from + n), KidAt(from + n + 1), BaseOf(from, n + 2);
    assert a + [k] + ([r] + []) == Kids(from, n + 2);
    assert Around(t, i, a, k, [r] + [], c);
    hide Path, Aside, Items, Kids, Located, Has, LowOf, LowIdOf, HighOf, WellFormed, Seps, Holds, Around;
    var merge, t1, k1 := MergeRound(t, i, a, k, r, [], c);
    AroundChain(t1, i, a, k1, [], c);
    var prevKey := 10 * (from + n);
    var post, t2 := PostRound(t1, i, a, k1, [], c, prevKey, n + 1);
    var tidy, t3 := TidyRound(t2, i, a, k1.(finished := true), [], Term(k1, prevKey, n + 1, c), BaseOf(from, n + 1));
    AroundLast(t3, i, from, n);
    AsideTwice(t, i, t1, t2);
    AsideTwice(t, i, t2, t3);
    PathOn(t, merge, t1, post, t2);
    PathOn(t, merge + post, t2, tidy, t3);
    steps, t' := merge + post + tidy, t3;
  }

  lemma AroundLast(t: State, i: nat, from: nat, n: nat)
    requires Around(t, i, Kids(from, n), KidAt(from + n), [], BaseOf(from, n + 1))
    ensures Holds(t, i, from, n + 1)
  {
    MoreKids(from, n);
    assert Kids(from, n) + [KidAt(from + n)] + [] == Kids(from, n + 1);
  }

  lemma {:induction false} Grow(t: State, n: nat, m: nat) returns (steps: seq<Step>, t': State)
    requires Holds(t, 0, 0, n + 1) && t.nextId == n + 2 && n <= m
    ensures Path(t, steps, t') && Aside(t, 0, t') && Holds(t', 0, 0, m + 1) && t'.nextId == m + 2
    decreases m - n
  {
    if n == m {
      return [], t;
    }
    hide Holds, Aside;
    var once, t1 := GrowOnce(t, n);
    var more, t2 := Grow(t1, n + 1, m);
    AsideTwice(t, 0, t1, t2);
    PathOn(t, once, t1, more, t2);
    steps, t' := once + more, t2;
  }

  lemma {:induction false} Shrink(t: State, i: nat, from: nat, n: nat, m: nat) returns (steps: seq<Step>, t': State)
    requires Holds(t, i, from, n + 1) && from > 0 && m <= n
    ensures Path(t, steps, t') && Aside(t, i, t') && Holds(t', i, from, m + 1) && t'.nextId == t.nextId
    decreases n - m
  {
    if n == m {
      return [], t;
    }
    hide Holds, Aside;
    var once, t1 := ShrinkOnce(t, i, from, n - 1);
    var more, t2 := Shrink(t1, i, from, n - 1, m);
    AsideTwice(t, i, t1, t2);
    PathOn(t, once, t1, more, t2);
    steps, t' := once + more, t2;
  }

  // ------------------------------------------------------------------------------------
  // The parent is split and merged again
  // ------------------------------------------------------------------------------------

  /** The old parent: it ends at 640. */
  function LeftPart(): Inner { Split(640, 129, 64, BaseOf(0, 128)) }

  function Whole(): Inner { Merge(640, 129, BaseOf(64, 32), LeftPart()) }

  lemma Start() returns (t: State)
    ensures Init(t) && Holds(t, 0, 0, 1) && t.nextId == 2 && |t.parents| == 1 && t.parents[0].id == 0
  {
    assert Items(0, 1) == [Sep(0, 1)] && Kids(0, 1) == [Kid(1, NegInf, Plain, false)];
    t := State([Parent(0, 0, Base(NegInf, PosInf, [Sep(0, 1)]), [Kid(1, NegInf, Plain, false)])], {},
               {Base(NegInf, PosInf, [Sep(0, 1)])}, map[0 := NegInf, 1 := NegInf], 2, 1);
  }

  lemma StartGrown() returns (t: State, steps: seq<Step>, t': State)
    ensures Init(t) && Path(t, steps, t') && Holds(t', 0, 0, 128) && t'.nextId == 129 && |t'.parents| == 1 && t'.parents[0].id == 0
  {
    hide Holds, Init, Path;
    t := Start();
    steps, t' := Grow(t, 0, 127);
  }

  lemma Halves()
    ensures Items(0, 128)[64..] == Items(64, 64) && Kids(0, 128)[64..] == Kids(64, 64) && Kids(0, 128)[..64] == Kids(0, 64)
    ensures |Items(0, 128)| == 128 && Items(0, 128)[64].key == 640 && |Kids(0, 128)| == 128 && Kids(0, 128)[64] == Kid(65, LowAt(640), Plain, false)
  {
  }

  lemma SplitOnce(t: State) returns (t': State)
    requires Holds(t, 0, 0, 128) && t.nextId == 129 && |t.parents| == 1 && t.parents[0].id == 0
    ensures Path(t, [SplitParent(0, 64, 64)], t') && t'.nextId == 130 && |t'.parents| == 2 && t'.parents[0].id == 0 && t'.parents[1].id == 129
    ensures t'.parents[0].chain == LeftPart() && t'.parents[0].kids == Kids(0, 64) && LeftPart() in t'.seen && Holds(t', 1, 64, 64)
  {
    Halves();
    hide Items, Kids;
    var step := SplitParent(0, 64, 64);
    assert t.parents[0].chain.items == Items(0, 128) && t.parents[0].kids == Kids(0, 128);
    assert Enabled(t, step);
    t' := After(t, step);
    assert BaseOf(64, 64) == RightHalf(t.parents[0], 64, 64, 129, t.nextVersion + 1).chain;
    PathOne(t, step);
  }

  /** Both parents again as one, over children of which the 64th and the 65th matter. */
  lemma MergeOnce(t: State) returns (t': State)
    requires |t.parents| == 2 && t.parents[0].id == 0 && t.parents[1].id == 129 && t.parents[0].chain == LeftPart() && t.parents[0].kids == Kids(0, 64)
    requires LeftPart() in t.seen && Holds(t, 1, 64, 32) && t.nextId == 130
    ensures Path(t, [MergeParent(0)], t') && |t'.parents| == 1 && t'.nextId == 130 && LeftPart() in t'.seen
    ensures Around(t', 0, Kids(0, 63), KidAt(63), [KidAt(64)] + Kids(65, 31), Whole())
  {
    var step := MergeParent(0);
    assert Enabled(t, step);
    t' := After(t, step);
    JoinedKids();
    hide Items, Kids;
    assert t'.parents[0].chain == Whole();
    assert t'.parents[0].kids == Kids(0, 64) + Kids(64, 32);
    PathOne(t, step);
  }

  lemma JoinedKids()
    ensures Kids(0, 64) + Kids(64, 32) == Kids(0, 63) + [KidAt(63)] + ([KidAt(64)] + Kids(65, 31))
  {
  }

  lemma WholeReached() returns (t: State, steps: seq<Step>, t': State)
    ensures Init(t) && Path(t, steps, t') && |t'.parents| == 1 && t'.nextId == 130 && LeftPart() in t'.seen
    ensures Around(t', 0, Kids(0, 63), KidAt(63), [KidAt(64)] + Kids(65, 31), Whole())
  {
    var grow, t1, shrink, t3;
    t, grow, t1 := StartGrown();
    var t2 := SplitOnce(t1);
    shrink, t3 := Shrink(t2, 1, 64, 63, 31);
    AsideParts(t2, t3);
    t' := MergeOnce(t3);
    hide *;
    PathOn(t, grow, t1, [SplitParent(0, 64, 64)], t2);
    PathOn(t, grow + [SplitParent(0, 64, 64)], t2, shrink, t3);
    PathOn(t, grow + [SplitParent(0, 64, 64)] + shrink, t3, [MergeParent(0)], t');
    steps := grow + [SplitParent(0, 64, 64)] + shrink + [MergeParent(0)];
  }

  lemma AsideParts(t: State, t': State)
    requires Aside(t, 1, t') && |t.parents| == 2
    ensures |t'.parents| == 2 && t'.parents[0] == t.parents[0] && t'.parents[1].id == t.parents[1].id && t.seen <= t'.seen
  {
  }

  // ------------------------------------------------------------------------------------
  // The early bounds check
  // ------------------------------------------------------------------------------------

  function Deleted(): Inner { Delete(Sep(640, 65), Sep(630, 64), HighAt(650, 66), 0, Whole()) }

  /** The high key passed on is 645, where the unlisted sibling begins. */
  function Last(): Inner { Insert(Sep(635, 131), HighAt(645, 130), 64, Deleted()) }

  /** What the two parts of the parent list. */
  lemma WholeSeps()
    ensures forall s :: s in Seps(Whole()) <==> exists j :: 1 <= j < 96 && s == ItemAt(j)
  {
    LeftSeps();
    RightSeps();
    assert LowIdOf(BaseOf(64, 32)) == 65;
    forall s
      ensures s in Seps(Whole()) <==> exists j :: 1 <= j < 96 && s == ItemAt(j)
    {
      if s in Seps(Whole()) {
        if s == Sep(640, 65) { assert s == ItemAt(64); }
      }
      if j :| 1 <= j < 96 && s == ItemAt(j) {
        assert j < 64 || j == 64 || 64 < j;
      }
    }
  }

  lemma LeftSeps()
    ensures forall s :: s in Seps(LeftPart()) <==> exists j :: 1 <= j < 64 && s == ItemAt(j)
  {
    forall s
      ensures s in Seps(LeftPart()) <==> exists j :: 1 <= j < 64 && s == ItemAt(j)
    {
      if s in Seps(LeftPart()) {
        var i :| 1 <= i < 128 && Items(0, 128)[i] == s;
        assert s == ItemAt(i);
      }
      if j :| 1 <= j < 64 && s == ItemAt(j) {
        assert Items(0, 128)[j] == s;
      }
    }
  }

  lemma RightSeps()
    ensures forall s :: s in Seps(BaseOf(64, 32)) <==> exists j :: 64 < j < 96 && s == ItemAt(j)
  {
    forall s
      ensures s in Seps(BaseOf(64, 32)) <==> exists j :: 64 < j < 96 && s == ItemAt(j)
    {
      if s in Seps(BaseOf(64, 32)) {
        var i :| 1 <= i < 32 && Items(64, 32)[i] == s;
        assert s == ItemAt(64 + i);
      }
      if j :| 64 < j < 96 && s == ItemAt(j) {
        assert Items(64, 32)[j - 64] == s;
      }
    }
  }

  lemma DeletedFacts()
    ensures forall s :: s in Seps(Deleted()) <==> exists j :: 1 <= j < 96 && j != 64 && s == ItemAt(j)
    ensures LowOf(Deleted()) == NegInf && HighOf(Deleted()) == PosInf && LowIdOf(Deleted()) == 1 && BaseFor(Deleted(), 635) == BaseOf(0, 128)
    ensures HighOf(Whole()) == PosInf && BaseFor(Whole(), 640) == BaseOf(64, 32) && HighOf(LeftPart()) == HighAt(640, 129) && LowOf(LeftPart()) == NegInf
  {
    WholeSeps();
    hide Items;
    forall s
      ensures s in Seps(Deleted()) <==> exists j :: 1 <= j < 96 && j != 64 && s == ItemAt(j)
    {
      if s in Seps(Deleted()) {
        var j :| 1 <= j < 96 && s == ItemAt(j);
        assert j != 64;
      }
      if j :| 1 <= j < 96 && j != 64 && s == ItemAt(j) {
        assert s in Seps(Whole()) && s.key != 640;
      }
    }
  }

  /** The children around the one that is split early. */
  function Before64(): seq<Kid> { Kids(0, 63) }

  function Behind64(): seq<Kid> { Kids(65, 31) }

  lemma TailKids()
    ensures |Before64()| == 63 && Ready(Before64(), KidAt(63)) && (forall x :: x in Before64() ==> x.id <= 63 && x.top.Plain?)
    ensures |Behind64()| == 31 && Behind64()[0] == Kid(66, LowAt(650), Plain, false) && forall x :: x in Behind64() ==> 65 < x.id < 97
    ensures Behind1(Behind64(), Whole()) == HighAt(650, 66) && Behind1(Behind64(), Deleted()) == HighAt(650, 66)
  {
  }

  function Kid630(): Kid { Kid(64, LowAt(630), Plain, false) }

  /** The child at 640 goes, and the parent no longer lists it. */
  lemma DeleteStep(t: State) returns (steps: seq<Step>, t': State, k: Kid)
    requires Around(t, 0, Before64(), KidAt(63), [KidAt(64)] + Behind64(), Whole())
    ensures Path(t, steps, t') && Aside(t, 0, t') && t'.nextId == t.nextId
    ensures k == Kid630().(top := MergeTop(Sep(640, 65), HighAt(650, 66)), finished := true) && Around(t', 0, Before64(), k, Behind64(), Deleted())
  {
    TailKids();
    DeletedFacts();
    hide Items, Kids, Before64, Behind64, Seps, Whole, Located, Has, Behind1;
    assert SepOf(KidAt(64)) == Sep(640, 65) && KidAt(63) == Kid630();
    var merge, t1, k1 := MergeRound(t, 0, Before64(), KidAt(63), KidAt(64), Behind64(), Whole());
    Postable640(t1.parents[0]);
    var post, t2 := PostRound(t1, 0, Before64(), k1, Behind64(), Whole(), 630, 0);
    AsideTwice(t, 0, t1, t2);
    hide Path, Aside, Around;
    PathOn(t, merge, t1, post, t2);
    steps, t', k := merge + post, t2, k1.(finished := true);
  }

  lemma Postable640(p: Parent)
    requires p.chain == Whole()
    ensures Postable(p, Kid630().(top := MergeTop(Sep(640, 65), HighAt(650, 66))), 630, 0)
  {
    DeletedFacts();
    WholeSeps();
    assert ItemAt(64) in Seps(Whole());
    hide Seps;
  }

  function Split645(): Kid { Kid630().(top := SplitTop(Sep(645, 130), HighAt(650, 66))) }

  function Split635(): Kid { Kid630().(top := SplitTop(Sep(635, 131), HighAt(645, 130))) }

  function Kid645(): Kid { Kid(130, LowAt(645), Plain, false) }

  function Kid635(): Kid { Kid(131, LowAt(635), Plain, false) }

  /** The child at 630 is split. */
  lemma FirstSplit(t: State, k: Kid) returns (t': State)
    requires Around(t, 0, Before64(), k, Behind64(), Deleted()) && t.nextId == 130
    requires k == Kid630().(top := MergeTop(Sep(640, 65), HighAt(650, 66)), finished := true)
    ensures Path(t, [SplitKid(0, 63, 645)], t') && Aside(t, 0, t') && t'.nextId == 131
    ensures Around(t', 0, Before64(), Split645(), [Kid645()] + Behind64(), Deleted())
  {
    TailKids();
    hide Before64, Behind64, Path, Aside, Deleted, Around, Behind1;
    var k1, s;
    t', k1, s := SplitRound(t, 0, Before64(), k, Behind64(), Deleted(), 645);
  }

  /** The check of its split key against the old parent, which ended at 640. */
  lemma EarlyCheck(t: State) returns (t': State)
    requires Around(t, 0, Before64(), Split645(), [Kid645()] + Behind64(), Deleted()) && LeftPart() in t.seen && |t.parents| == 1
    ensures Enabled(t, Beyond(0, 63, LeftPart())) && !UpToDate(t, Beyond(0, 63, LeftPart())) && t' == After(t, Beyond(0, 63, LeftPart()))
    ensures Aside(t, 0, t') && t'.nextId == t.nextId && |t'.parents| == 1
    ensures Around(t', 0, Before64(), Split645().(finished := true), [Kid645()] + Behind64(), Deleted())
  {
    TailKids();
    DeletedFacts();
    AroundIs(Before64(), Split645(), [Kid645()] + Behind64());
    hide Before64, Behind64, Seps, LowOf, HighOf, Items, Kids;
    var step := Beyond(0, 63, LeftPart());
    assert t.parents[0].kids[63] == Split645();
    assert Enabled(t, step);
    assert t.parents[0].chain == Deleted() && Deleted() != LeftPart();
    t' := After(t, step);
  }

  /** The child is split once more, and this split is posted. */
  lemma SecondSplit(t: State) returns (steps: seq<Step>, t': State)
    requires Around(t, 0, Before64(), Split645().(finished := true), [Kid645()] + Behind64(), Deleted()) && t.nextId == 131
    ensures Path(t, steps, t') && Aside(t, 0, t')
    ensures Around(t', 0, Before64(), Split635().(finished := true), [Kid635()] + ([Kid645()] + Behind64()), Last())
  {
    TailKids();
    hide Before64, Behind64, Path, Aside, Deleted, Around, Behind1, Postable;
    NextKid();
    var t1, k1, s := SplitRound(t, 0, Before64(), Split645().(finished := true), [Kid645()] + Behind64(), Deleted(), 635);
    assert k1 == Split635() && s == Kid635();
    AroundChain(t1, 0, Before64(), Split635(), [Kid635()] + ([Kid645()] + Behind64()), Deleted());
    Postable635(t1.parents[0]);
    var post, t2 := PostRound(t1, 0, Before64(), Split635(), [Kid635()] + ([Kid645()] + Behind64()), Deleted(), 0, 64);
    AsideTwice(t, 0, t1, t2);
    PathOn(t, [SplitKid(0, |Before64()|, 635)], t1, post, t2);
    steps, t' := [SplitKid(0, |Before64()|, 635)] + post, t2;
  }

  lemma NextKid()
    ensures Behind1([Kid645()] + Behind64(), Deleted()) == HighAt(645, 130) && Ready(Before64(), Split645().(finished := true))
  {
    TailKids();
    hide HighOf, Kids;
  }

  lemma Postable635(p: Parent)
    requires p.chain == Deleted()
    ensures Postable(p, Split635(), 0, 64)
  {
    DeletedFacts();
    assert Located(BaseOf(0, 128), 635, 64);
    hide Seps, Items, Located;
  }

  // ------------------------------------------------------------------------------------
  // Where the run ends
  // ------------------------------------------------------------------------------------

  /** Where search and consolidation part: key 647 belongs to the child at 635, the search ends at 630. */
  lemma LastNotExact()
    ensures var c := Last();
            && InRange(647, LowOf(c), HighOf(c)) && !Exact(c)
            && Choice(c, 647) == 64 && !Routes(c, 647, 64) && Routes(c, 647, 131)
  {
    hide *;
    LastRange();
    LastChoice();
    NotSuccessor();
    LastInexact();
    LastRoutes();
  }

  lemma LastRange()
    ensures InRange(647, LowOf(Last()), HighOf(Last()))
  {
    hide *;
    DeletedFacts();
    LastSeps();
    Everywhere(647);
  }

  lemma Everywhere(k: int)
    ensures InRange(k, NegInf, PosInf)
  {
  }

  lemma LastChoice()
    ensures Choice(Last(), 647) == 64
  {
    hide Items, Whole, LowIdOf;
  }

  lemma LastInexact()
    requires !SuccessorIs(Deleted(), 635, HighAt(645, 130))
    ensures !Exact(Last())
  {
    hide SuccessorIs, Deleted;
  }

  lemma LastSeps()
    ensures Seps(Last()) == Seps(Deleted()) + {Sep(635, 131)}
    ensures LowOf(Last()) == LowOf(Deleted()) && HighOf(Last()) == HighOf(Deleted()) && LowIdOf(Last()) == LowIdOf(Deleted())
  {
  }

  lemma NotSuccessor()
    ensures !SuccessorIs(Deleted(), 635, HighAt(645, 130))
  {
    DeletedFacts();
    hide Seps, Items;
    assert !Has(Deleted(), 645);
  }

  lemma LastRoutes()
    ensures !Routes(Last(), 647, 64) && Routes(Last(), 647, 131)
  {
    DeletedFacts();
    LastSeps();
    hide Seps, Items, LowIdOf;
    assert Sep(635, 131) in Seps(Last());
    forall s | s in Seps(Last()) && s.key <= 647
      ensures s.key <= 635 && (s.id == 64 ==> s.key == 630)
    {
    }
  }

  /** A run in which one thread checks the bounds against an old snapshot of the parent, and every other
      step is as it should be, ends in a parent chain that is not searched as it would be consolidated:
      the parent is split at 128 children, merged again when its right part is down to 32, and before
      the split it is that the thread has seen it. */
  lemma EarlyRun() returns (steps: seq<Step>, states: seq<State>, k: nat)
    ensures Run(steps, states) && k < |steps| && forall n :: 0 <= n < |steps| ==> (UpToDate(states[n], steps[n]) <==> n != k)
    ensures |states[|steps|].parents| == 1
    ensures var c := states[|steps|].parents[0].chain;
            InRange(647, LowOf(c), HighOf(c)) && !Exact(c) && !Routes(c, 647, Choice(c, 647)) && Routes(c, 647, 131)
  {
    hide *;
    var t0, a, t1 := WholeReached();
    assert Before64() == Kids(0, 63) && Behind64() == Kids(65, 31) by { TailIs(); }
    var b, t2, kid := DeleteStep(t1);
    var t3 := FirstSplit(t2, kid);
    OneParent(t1, t2);
    OneParent(t2, t3);
    var t4 := EarlyCheck(t3);
    var d, t5 := SecondSplit(t4);
    OneParent(t4, t5);
    AroundChain(t5, 0, Before64(), Split635().(finished := true), [Kid635()] + ([Kid645()] + Behind64()), Last());
    LastNotExact();
    NoSteps(t0);
    var s1, r1 := RunOn([], [t0], t0, a, t1);
    var s2, r2 := RunOn(s1, r1, t1, b, t2);
    var s3, r3 := RunOn(s2, r2, t2, [SplitKid(0, 63, 645)], t3);
    EndsIs(s3, r3, t3);
    k := |s3|;
    var s4, r4 := StepOn(s3, r3, t3, Beyond(0, 63, LeftPart()));
    steps, states := RunOn(s4, r4, t4, d, t5);
    EndsIs(steps, states, t5);
    forall n | 0 <= n < |steps|
      ensures UpToDate(states[n], steps[n]) <==> n != k
    {
      assert n == k ==> steps[n] == s4[n] && states[n] == r4[n];
      if n < k { assert s1 <= s2 <= s3 <= s4 <= steps && steps[n] == s3[n]; }
      NoBound(states[n], steps[n]);
    }
  }

  lemma TailIs()
    ensures Before64() == Kids(0, 63) && Behind64() == Kids(65, 31)
  {
  }

  lemma OneParent(t: State, t': State)
    requires Aside(t, 0, t')
    ensures |t'.parents| == |t.parents| && t.seen <= t'.seen
  {
  }

  lemma NoSteps(t: State)
    requires Init(t)
    ensures Ends([], [t], t)
  {
  }

  lemma EndsIs(steps: seq<Step>, states: seq<State>, t: State)
    requires Ends(steps, states, t)
    ensures Run(steps, states) && |states| == |steps| + 1 && states[|steps|] == t
  {
  }

  lemma NoBound(t: State, step: Step)
    ensures !step.Beyond? ==> UpToDate(t, step)
  {
  }
}
