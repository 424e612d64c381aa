/** A thread that nobody disturbs: its operations and its collections run to their ends. */
module EpochSolo {
  import opened EpochGc
  import opened GcList

  /** Steps that may be taken one after the other, and the states they lead through. */
  ghost predicate Segment(states: seq<State>, steps: seq<Step>)
  {
    && |states| == |steps| + 1
    && forall k :: 0 <= k < |steps| ==> Enabled(states[k], steps[k]) && states[k + 1] == After(states[k], steps[k])
  }

  lemma OneStep(s: State, step: Step)
    requires Enabled(s, step)
    ensures Segment([s, After(s, step)], [step])
  {
    hide Enabled, After;
  }

  lemma Joined(states: seq<State>, steps: seq<Step>, states': seq<State>, steps': seq<Step>)
    requires Segment(states, steps) && Segment(states', steps') && states[|steps|] == states'[0]
    ensures Segment(states + states'[1..], steps + steps') && (states + states'[1..])[|steps| + |steps'|] == states'[|steps'|]
    ensures (states + states'[1..])[0] == states[0]
  {
    hide Enabled, After;
    var r, rs := states + states'[1..], steps + steps';
    forall k | 0 <= k < |rs|
      ensures Enabled(r[k], rs[k]) && r[k + 1] == After(r[k], rs[k])
    {
      if k < |steps| {
        assert r[k] == states[k] && r[k + 1] == states[k + 1];
      } else {
        assert r[k] == states'[k - |steps|] && r[k + 1] == states'[k - |steps| + 1];
      }
    }
  }

  /** The smallest epoch that the first `n` threads show. */
  function MinActive(threads: seq<Thread>, n: nat): (min: nat)
    requires 0 < n <= |threads|
    ensures forall j :: 0 <= j < n ==> min <= threads[j].lastActive
    ensures exists j :: 0 <= j < n && min == threads[j].lastActive
  {
    if n == 1 then threads[0].lastActive else Min(MinActive(threads, n - 1), threads[n - 1].lastActive)
  }

  lemma SetTwice(s: State, i: nat, t: Thread, t': Thread)
    requires i < |s.threads|
    ensures |Set(s, i, t).threads| == |s.threads| && Set(Set(s, i, t), i, t') == Set(s, i, t') && Set(s, i, t).threads[i] == t
    ensures forall j :: 0 <= j < |s.threads| && j != i ==> Set(s, i, t).threads[j] == s.threads[j]
  {
  }

  lemma MinUnfolds(threads: seq<Thread>, n: nat)
    requires 0 < n < |threads|
    ensures MinActive(threads, n + 1) == Min(MinActive(threads, n), threads[n].lastActive)
  {
  }

  lemma ReadsNext(s: State, i: nat)
    requires i < |s.threads| && s.threads[i].gc.Summarizing?
    ensures Enabled(s, ReadNext(i))
    ensures var t := s.threads[i];
            After(s, ReadNext(i)) == Set(s, i, t.(gc := if t.gc.next < |s.threads|
                                                        then Summarizing(t.gc.next + 1, Min(t.gc.min, s.threads[t.gc.next].lastActive))
                                                        else Collecting(t.gc.min)))
  {
  }

  /** The rest of the epochs is read, with the minimum over all as outcome. */
  lemma {:induction false} LoneReads(s: State, threads: seq<Thread>, i: nat) returns (states: seq<State>, steps: seq<Step>)
    requires i < |s.threads| == |threads| && s.threads[i].gc.Summarizing? && 0 < s.threads[i].gc.next <= |threads|
    requires s.threads[i].gc.min == MinActive(threads, s.threads[i].gc.next)
    requires forall j :: 0 <= j < |threads| ==> s.threads[j].lastActive == threads[j].lastActive
    ensures |states| == |steps| + 1 && Segment(states, steps) && states[0] == s
    ensures states[|steps|] == Set(s, i, s.threads[i].(gc := Collecting(MinActive(threads, |threads|))))
    decreases |threads| - s.threads[i].gc.next
  {
    hide *;
    var step, t := ReadNext(i), s.threads[i];
    ReadsNext(s, i);
    var s1 := After(s, step);
    OneStep(s, step);
    states, steps := [s, s1], [step];
    if t.gc.next < |threads| {
      var t1 := t.(gc := Summarizing(t.gc.next + 1, Min(t.gc.min, threads[t.gc.next].lastActive)));
      var t2 := t.(gc := Collecting(MinActive(threads, |threads|)));
      SetTwice(s, i, t1, t2);
      MinUnfolds(threads, t.gc.next);
      var states', steps' := LoneReads(s1, threads, i);
      Joined(states, steps, states', steps');
      states, steps := states + states'[1..], steps + steps';
    }
  }

  lemma Begins(s: State, i: nat)
    requires i < |s.threads| && s.threads[i].gc.Due?
    ensures Enabled(s, StartGc(i)) && After(s, StartGc(i)) == Set(s, i, s.threads[i].(gc := Summarizing(1, MinActive(s.threads, 1))))
  {
  }

  lemma Finishes(s: State, i: nat)
    requires Enabled(s, EndGc(i))
    ensures i < |s.threads| && After(s, EndGc(i)) == Set(s, i, s.threads[i].(gc := NoGc))
  {
  }

  lemma FreesSegment(s: State, i: nat, states: seq<State>, n: nat) returns (steps: seq<Step>)
    requires Frees(s, i, states, n)
    ensures |steps| == n && |states| == n + 1 && Segment(states, steps) && states[0] == s
  {
    steps := seq(n, k => Free(i));
    hide Enabled, After;
  }

  /** A collection that is due runs to its end and frees exactly the leading entries older than the
      smallest epoch shown; the thread goes on with the rest of its list. */
  lemma LoneCollection(s: State, i: nat) returns (states: seq<State>, steps: seq<Step>)
    requires i < |s.threads| && s.threads[i].gc.Due? && s.threads[i].nodeCount == |s.threads[i].garbage|
    ensures |states| == |steps| + 1 && Segment(states, steps) && states[0] == s
    ensures var t, s', n := s.threads[i], states[|steps|], Older(s.threads[i].garbage, MinActive(s.threads, |s.threads|));
            && |s'.threads| == |s.threads|
            && s'.threads[i] == t.(garbage := t.garbage[n..], nodeCount := |t.garbage| - n, gc := NoGc)
            && (forall k :: 0 <= k < n ==> Is(s', t.garbage[k].node, Freed))
            && (forall m :: m in s'.place && s'.place[m] != Freed ==> Is(s, m, s'.place[m]))
  {
    hide *;
    Begins(s, i);
    OneStep(s, StartGc(i));
    var t, min := s.threads[i], MinActive(s.threads, |s.threads|);
    var s1 := After(s, StartGc(i));
    SetTwice(s, i, t.(gc := Summarizing(1, MinActive(s.threads, 1))), t.(gc := Collecting(min)));
    var a, as' := LoneReads(s1, s.threads, i);
    Joined([s, s1], [StartGc(i)], a, as');
    states, steps := [s, s1] + a[1..], [StartGc(i)] + as';
    var s2 := a[|as'|];
    SetTwice(s, i, t.(gc := Collecting(min)), t);
    SamePlaces(s, i, t.(gc := Collecting(min)));
    var b := CollectionIsFrees(s2, i);
    var n := Older(t.garbage, min);
    FreesAre(s2, i, b, n);
    var bs := FreesSegment(s2, i, b, n);
    Joined(states, steps, b, bs);
    states, steps := states + b[1..], steps + bs;
    var s3 := b[n];
    Finishes(s3, i);
    OneStep(s3, EndGc(i));
    var s4 := After(s3, EndGc(i));
    SetTwice(s3, i, s3.threads[i].(gc := NoGc), t);
    SamePlaces(s3, i, s3.threads[i].(gc := NoGc));
    Joined(states, steps, [s3, s4], [EndGc(i)]);
    states, steps := states + [s3, s4][1..], steps + [EndGc(i)];
  }

  lemma SamePlaces(s: State, i: nat, t: Thread)
    requires i < |s.threads|
    ensures Set(s, i, t).place == s.place
    ensures forall n, p :: Is(Set(s, i, t), n, p) <==> Is(s, n, p)
  {
  }

  /** A thread that is in the middle of nothing can begin an operation. */
  lemma LoneJoin(s: State, i: nat) returns (states: seq<State>)
    requires i < |s.threads| && Ready(s.threads[i]) && !s.threads[i].running
    ensures |states| == 3 && Segment(states, [ReadToJoin(i), Join(i)]) && states[0] == s
    ensures states[2] == Set(s, i, s.threads[i].(lastActive := s.epoch, running := true, refs := {}, since := {}))
  {
    var s1 := After(s, ReadToJoin(i));
    states := [s, s1, After(s1, Join(i))];
  }

  /** An operation can come across a node, replace it by a new one, and hand it over. */
  lemma LoneWork(s: State, i: nat, n: Ptr, m: Ptr) returns (states: seq<State>)
    requires i < |s.threads| && InOperation(s.threads[i]) && Is(s, n, Linked) && m !in s.place
    ensures |states| == 6 && Segment(states, [Touch(i, n), Make(i, m), Link(i, m), Unlink(i, n), AddGarbage(i, n)]) && states[0] == s
    ensures var t, s' := s.threads[i], states[5];
            && |s'.threads| == |s.threads| && s'.epoch == s.epoch && s'.place == s.place[m := Linked][n := InGarbage(i)]
            && s'.threads[i] == t.(refs := t.refs + {n}, since := t.since + {n}, garbage := t.garbage + [Garbage(s.epoch, n)], nodeCount := t.nodeCount + 1,
                                   gc := if GC_NODE_COUNT_THREADHOLD <= t.nodeCount then Due else NoGc)
  {
    var a := LoneReplace(s, i, n, m);
    var b := LoneHandOver(a[3], i, n);
    hide *;
    Joined(a, [Touch(i, n), Make(i, m), Link(i, m)], b, [Unlink(i, n), AddGarbage(i, n)]);
    states := a + b[1..];
    assert [Touch(i, n), Make(i, m), Link(i, m)] + [Unlink(i, n), AddGarbage(i, n)] == [Touch(i, n), Make(i, m), Link(i, m), Unlink(i, n), AddGarbage(i, n)];
  }

  lemma LoneReplace(s: State, i: nat, n: Ptr, m: Ptr) returns (states: seq<State>)
    requires i < |s.threads| && InOperation(s.threads[i]) && Is(s, n, Linked) && m !in s.place
    ensures |states| == 4 && Segment(states, [Touch(i, n), Make(i, m), Link(i, m)]) && states[0] == s
    ensures states[3] == Put(Set(s, i, s.threads[i].(refs := s.threads[i].refs + {n})), m, Linked)
  {
    var s1 := After(s, Touch(i, n));
    var s2 := After(s1, Make(i, m));
    states := [s, s1, s2, After(s2, Link(i, m))];
  }

  lemma LoneHandOver(s: State, i: nat, n: Ptr) returns (states: seq<State>)
    requires i < |s.threads| && InOperation(s.threads[i]) && Is(s, n, Linked)
    ensures |states| == 3 && Segment(states, [Unlink(i, n), AddGarbage(i, n)]) && states[0] == s
    ensures var t, s' := s.threads[i], states[2];
            && |s'.threads| == |s.threads| && s'.epoch == s.epoch && s'.place == s.place[n := InGarbage(i)]
            && s'.threads[i] == t.(since := t.since + {n}, garbage := t.garbage + [Garbage(s.epoch, n)], nodeCount := t.nodeCount + 1,
                                   gc := if GC_NODE_COUNT_THREADHOLD <= t.nodeCount then Due else NoGc)
  {
    var s1 := After(s, Unlink(i, n));
    states := [s, s1, After(s1, AddGarbage(i, n))];
  }

  /** A node that was made and could not be installed is handed over like one that was unlinked. */
  lemma LoneGiveUp(s: State, i: nat, m: Ptr) returns (states: seq<State>)
    requires i < |s.threads| && InOperation(s.threads[i]) && m !in s.place
    ensures |states| == 4 && Segment(states, [Make(i, m), GiveUp(i, m), AddGarbage(i, m)]) && states[0] == s
    ensures var t, s' := s.threads[i], states[3];
            && |s'.threads| == |s.threads| && s'.place == s.place[m := InGarbage(i)]
            && s'.threads[i].garbage == t.garbage + [Garbage(s.epoch, m)] && s'.threads[i].refs == t.refs
  {
    var s1 := After(s, Make(i, m));
    var s2 := After(s1, GiveUp(i, m));
    states := [s, s1, s2, After(s2, AddGarbage(i, m))];
  }

  /** A thread that is in the middle of nothing can unregister; from then on it holds up no collection. */
  lemma LoneUnregister(s: State, i: nat) returns (s': State)
    requires i < |s.threads| && Ready(s.threads[i]) && !s.threads[i].running
    ensures Enabled(s, Unregister(i)) && s' == After(s, Unregister(i)) && |s'.threads| == |s.threads|
    ensures 1 < |s.threads| && (forall j :: 0 <= j < |s.threads| ==> s.threads[j].lastActive <= s.epoch) && s.epoch < OFF ==>
      exists j :: 0 <= j < |s.threads| && j != i && MinActive(s'.threads, |s'.threads|) == s.threads[j].lastActive
  {
    s' := After(s, Unregister(i));
    var n := |s.threads|;
    var j: nat :| j < n && MinActive(s'.threads, n) == s'.threads[j].lastActive;
    var k := if i == 0 then 1 else 0;
    assert 1 < n ==> MinActive(s'.threads, n) <= s'.threads[k].lastActive;
  }

  /** An operation can end; its thread then shows the epoch of the moment. */
  lemma LoneLeave(s: State, i: nat) returns (states: seq<State>)
    requires i < |s.threads| && InOperation(s.threads[i])
    ensures |states| == 3 && Segment(states, [ReadToLeave(i), Leave(i)]) && states[0] == s
    ensures states[2] == Set(s, i, s.threads[i].(lastActive := s.epoch, running := false, refs := {}, since := {}))
  {
    var s1 := After(s, ReadToLeave(i));
    states := [s, s1, After(s1, Leave(i))];
  }
}
