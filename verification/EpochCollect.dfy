/** What collection achieves in a run: the minimum it finds, what it frees, and that what is handed over
is freed once all threads have moved on. */
module EpochCollect {
  import opened EpochGc
  import opened GcList

  // ------------------------------------------------------------------------------------
  // Single steps
  // ------------------------------------------------------------------------------------

  lemma RunStep(states: seq<State>, steps: seq<Step>, k: nat)
    requires Run(states, steps) && k < |steps|
    ensures |states| == |steps| + 1 && Enabled(states[k], steps[k]) && states[k + 1] == After(states[k], steps[k])
  {
    hide Enabled, After;
  }

  lemma SameCount(s: State, step: Step)
    requires Enabled(s, step)
    ensures |After(s, step).threads| == |s.threads|
  {
  }

  /** The same threads throughout. */
  lemma {:induction false} SameThreads(states: seq<State>, steps: seq<Step>, k: nat)
    requires Run(states, steps) && k <= |steps|
    ensures |states| == |steps| + 1 && |states[k].threads| == |states[0].threads|
  {
    if k > 0 {
      SameThreads(states, steps, k - 1);
      RunStep(states, steps, k - 1);
      hide Run, Enabled, After;
      SameCount(states[k - 1], steps[k - 1]);
    }
  }

  /** What a step does to the collection and the list of a thread. */
  lemma CollectorStep(s: State, step: Step, i: nat)
    requires Enabled(s, step) && i < |s.threads|
    ensures |After(s, step).threads| == |s.threads|
    ensures var s' := After(s, step); var t, t' := s.threads[i], s'.threads[i];
            && (step == StartGc(i) ==> t'.gc == Summarizing(1, s.threads[0].lastActive) && t'.garbage == t.garbage)
            && (step == ReadNext(i) ==> t.gc.Summarizing? && t'.garbage == t.garbage)
            && (step == ReadNext(i) ==> t'.gc == if t.gc.next < |s.threads| then Summarizing(t.gc.next + 1, Min(t.gc.min, s.threads[t.gc.next].lastActive)) else Collecting(t.gc.min))
            && (step == Free(i) ==> t.gc.Collecting? && t'.gc == t.gc && t.garbage != [] && t.garbage[0].deleteEpoch < t.gc.min)
            && (step == Free(i) ==> t'.garbage == t.garbage[1..] && Is(s', t.garbage[0].node, Freed))
            && (step == EndGc(i) ==> t.gc.Collecting? && (t.garbage == [] || t.gc.min <= t.garbage[0].deleteEpoch))
            && (step == EndGc(i) ==> s'.place == s.place && t' == t.(gc := NoGc))
            && (step.AddGarbage? && step.i == i ==> t.gc.NoGc? && (t'.gc.NoGc? || t'.gc.Due?) && t'.garbage == t.garbage + [Garbage(s.epoch, step.node)])
            && (step != StartGc(i) && step != ReadNext(i) && step != Free(i) && step != EndGc(i) && !(step.AddGarbage? && step.i == i) ==>
                  t'.gc == t.gc && t'.garbage == t.garbage)
  {
  }

  // ------------------------------------------------------------------------------------
  // The minimum
  // ------------------------------------------------------------------------------------

  /** The collection of thread `i` that is going on at `e` has read the epoch of thread `j` in step
      `times[j]`, and `min` is the smallest of them. */
  ghost predicate Gathered(states: seq<State>, steps: seq<Step>, i: nat, e: nat, times: seq<nat>, min: nat)
  {
    && 0 < |times| && e <= |steps| < |states|
    && (forall j :: 0 <= j < |times| ==> times[j] < e && j < |states[times[j]].threads| && steps[times[j]] == (if j == 0 then StartGc(i) else ReadNext(i)))
    && (forall j, k :: 0 <= j < k < |times| ==> times[j] < times[k])
    && (forall j :: 0 <= j < |times| ==> min <= states[times[j]].threads[j].lastActive)
    && (exists j :: 0 <= j < |times| && min == states[times[j]].threads[j].lastActive)
    && (forall k :: times[0] < k < e ==> steps[k] != StartGc(i) && steps[k] != EndGc(i))
  }

  lemma GatheredStarts(states: seq<State>, steps: seq<Step>, i: nat, e: nat)
    requires e < |steps| < |states| && steps[e] == StartGc(i) && 0 < |states[e].threads|
    ensures Gathered(states, steps, i, e + 1, [e], states[e].threads[0].lastActive)
  {
    assert [e][0] == e;
  }

  lemma GatheredLater(states: seq<State>, steps: seq<Step>, i: nat, e: nat, times: seq<nat>, min: nat)
    requires Gathered(states, steps, i, e, times, min) && e < |steps| && steps[e] != StartGc(i) && steps[e] != EndGc(i)
    ensures Gathered(states, steps, i, e + 1, times, min)
  {
  }

  lemma GatheredMore(states: seq<State>, steps: seq<Step>, i: nat, e: nat, times: seq<nat>, min: nat)
    requires Gathered(states, steps, i, e, times, min) && e < |steps| && steps[e] == ReadNext(i) && |times| < |states[e].threads|
    ensures Gathered(states, steps, i, e + 1, times + [e], Min(min, states[e].threads[|times|].lastActive))
  {
    var times', m := times + [e], states[e].threads[|times|].lastActive;
    if m < min {
      assert times'[|times|] == e;
    } else {
      var j :| 0 <= j < |times| && min == states[times[j]].threads[j].lastActive;
      assert times'[j] == times[j];
    }
  }

  // ------------------------------------------------------------------------------------
  // What it frees
  // ------------------------------------------------------------------------------------

  /** Of the list there was in state `b` the first `c` entries are freed, all older than the minimum. */
  ghost predicate Emptied(states: seq<State>, i: nat, b: nat, e: nat, min: nat, c: nat)
  {
    && b < |states| && e < |states| && i < |states[b].threads| && i < |states[e].threads|
    && var g := states[b].threads[i].garbage;
       && c <= |g| && states[e].threads[i].garbage == g[c..]
       && forall k :: 0 <= k < c ==> g[k].deleteEpoch < min && Is(states[e], g[k].node, Freed)
  }

  lemma EmptiedLater(states: seq<State>, i: nat, b: nat, e: nat, min: nat, c: nat)
    requires Emptied(states, i, b, e, min, c) && e + 1 < |states| && i < |states[e + 1].threads|
    requires states[e + 1].threads[i].garbage == states[e].threads[i].garbage
    requires forall n :: Is(states[e], n, Freed) ==> Is(states[e + 1], n, Freed)
    ensures Emptied(states, i, b, e + 1, min, c)
  {
  }

  lemma EmptiedMore(states: seq<State>, i: nat, b: nat, e: nat, min: nat, c: nat)
    requires Emptied(states, i, b, e, min, c) && e + 1 < |states| && i < |states[e + 1].threads|
    requires var g := states[e].threads[i].garbage;
             g != [] && g[0].deleteEpoch < min && states[e + 1].threads[i].garbage == g[1..] && Is(states[e + 1], g[0].node, Freed)
    requires forall n :: Is(states[e], n, Freed) ==> Is(states[e + 1], n, Freed)
    ensures Emptied(states, i, b, e + 1, min, c + 1)
  {
    var g := states[b].threads[i].garbage;
    assert g[c..][0] == g[c] && g[c..][1..] == g[c + 1..];
  }

  lemma FreedStay(s: State, step: Step)
    requires Inv(s) && Enabled(s, step)
    ensures forall n :: Is(s, n, Freed) ==> Is(After(s, step), n, Freed)
  {
    hide *;
    forall n | Is(s, n, Freed)
      ensures Is(After(s, step), n, Freed)
    {
      StaysFreed(s, step, n);
    }
  }

  predicate Collects(gc: Gc)
  {
    gc.Summarizing? || gc.Collecting?
  }

  /** A collection in progress, at any moment of any run: it has read the epochs of the threads one
      after the other, it has found the smallest, and it has freed the first entries of its list. */
  lemma {:induction false} InProgress(states: seq<State>, steps: seq<Step>, i: nat, e: nat) returns (times: seq<nat>, c: nat)
    requires Run(states, steps) && e <= |steps| && i < |states[e].threads| && Collects(states[e].threads[i].gc)
    ensures var gc := states[e].threads[i].gc;
            && Gathered(states, steps, i, e, times, gc.min)
            && |times| == (if gc.Summarizing? then gc.next else |states[e].threads|)
            && (gc.Summarizing? ==> c == 0 && gc.next <= |states[e].threads|)
            && Emptied(states, i, times[0], e, gc.min, c)
  {
    hide *;
    SameThreads(states, steps, e);
    if e == 0 {
      NoneAtFirst(states, steps, i);
      assert false;
    }
    var s, step := states[e - 1], steps[e - 1];
    RunStep(states, steps, e - 1);
    RunKeeps(states, steps, e - 1);
    SameThreads(states, steps, e - 1);
    FreedStay(s, step);
    CollectorStep(s, step, i);
    CollectsIs(s.threads[i].gc, states[e].threads[i].gc);
    if step == StartGc(i) {
      times, c := [e - 1], 0;
      GatheredStarts(states, steps, i, e - 1);
      EmptiedStarts(states, i, e - 1);
      EmptiedLater(states, i, e - 1, e - 1, states[e].threads[i].gc.min, 0);
    } else {
      times, c := InProgress(states, steps, i, e - 1);
      var min := s.threads[i].gc.min;
      GatheredIs(states, steps, i, e - 1, times, min);
      if step == Free(i) {
        GatheredLater(states, steps, i, e - 1, times, min);
        EmptiedMore(states, i, times[0], e - 1, min, c);
        c := c + 1;
      } else {
        EmptiedLater(states, i, times[0], e - 1, min, c);
        if step == ReadNext(i) && s.threads[i].gc.next < |s.threads| {
          GatheredMore(states, steps, i, e - 1, times, min);
          EmptiedNone(states, i, times[0], e, min, states[e].threads[i].gc.min);
          times := times + [e - 1];
        } else {
          GatheredLater(states, steps, i, e - 1, times, min);
        }
      }
    }
  }

  lemma NoneAtFirst(states: seq<State>, steps: seq<Step>, i: nat)
    requires Run(states, steps) && i < |states[0].threads|
    ensures !Collects(states[0].threads[i].gc)
  {
  }

  lemma CollectsIs(gc: Gc, gc': Gc)
    ensures Collects(gc') <==> gc'.Summarizing? || gc'.Collecting?
    ensures Collects(gc) <==> gc.Summarizing? || gc.Collecting?
  {
  }

  lemma GatheredIs(states: seq<State>, steps: seq<Step>, i: nat, e: nat, times: seq<nat>, min: nat)
    requires Gathered(states, steps, i, e, times, min)
    ensures 0 < |times| && times[0] < e && steps[times[0]] == StartGc(i)
    ensures forall k :: times[0] < k < e ==> steps[k] != StartGc(i) && steps[k] != EndGc(i)
  {
  }

  lemma EmptiedStarts(states: seq<State>, i: nat, e: nat)
    requires e < |states| && i < |states[e].threads|
    ensures forall min :: Emptied(states, i, e, e, min, 0)
  {
  }

  lemma EmptiedNone(states: seq<State>, i: nat, b: nat, e: nat, min: nat, min': nat)
    requires Emptied(states, i, b, e, min, 0)
    ensures Emptied(states, i, b, e, min', 0)
  {
  }

  /** A collection that has come to its end, in any run: it has read the epoch of every thread, and its
      list is what it was at the beginning without the leading entries older than the smallest of them,
      which are freed. */
  lemma CollectionEnds(states: seq<State>, steps: seq<Step>, i: nat, e: nat) returns (times: seq<nat>, min: nat)
    requires Run(states, steps) && e < |steps| && steps[e] == EndGc(i)
    ensures i < |states[e].threads| && |times| == |states[e].threads| && Gathered(states, steps, i, e, times, min)
    ensures i < |states[times[0]].threads| && Emptied(states, i, times[0], e + 1, min, Older(states[times[0]].threads[i].garbage, min))
  {
    hide *;
    RunStep(states, steps, e);
    EndOf(states[e], i);
    var c;
    times, c := InProgress(states, steps, i, e);
    min := states[e].threads[i].gc.min;
    RunKeeps(states, steps, e);
    FreedStay(states[e], steps[e]);
    CollectorStep(states[e], steps[e], i);
    GatheredIs(states, steps, i, e, times, min);
    EmptiedLater(states, i, times[0], e, min, c);
    AllEmptied(states, i, times[0], e + 1, min, c);
  }

  lemma EndOf(s: State, i: nat)
    requires Enabled(s, EndGc(i))
    ensures i < |s.threads| && s.threads[i].gc.Collecting? && Collects(s.threads[i].gc)
    ensures s.threads[i].garbage == [] || s.threads[i].gc.min <= s.threads[i].garbage[0].deleteEpoch
  {
  }

  lemma AllEmptied(states: seq<State>, i: nat, b: nat, e: nat, min: nat, c: nat)
    requires Emptied(states, i, b, e, min, c) && (states[e].threads[i].garbage == [] || min <= states[e].threads[i].garbage[0].deleteEpoch)
    ensures c == Older(states[b].threads[i].garbage, min)
  {
    var g := states[b].threads[i].garbage;
    assert c < |g| ==> g[c..][0] == g[c];
    OlderIs(g, min, c);
  }

  // ------------------------------------------------------------------------------------
  // What is handed over
  // ------------------------------------------------------------------------------------

  /** Every list is in the order of the epochs it was filled in. */
  ghost predicate InOrder(s: State, i: nat)
    requires i < |s.threads|
  {
    var g := s.threads[i].garbage;
    && (forall k, l :: 0 <= k < l < |g| ==> g[k].deleteEpoch <= g[l].deleteEpoch)
    && (forall k :: 0 <= k < |g| ==> g[k].deleteEpoch <= s.epoch)
  }

  lemma EpochGrows(s: State, step: Step)
    requires Enabled(s, step)
    ensures s.epoch <= After(s, step).epoch
  {
  }

  lemma InOrderStep(s: State, s': State, i: nat)
    requires i < |s.threads| && i < |s'.threads| && InOrder(s, i) && s.epoch <= s'.epoch
    requires var g, g' := s.threads[i].garbage, s'.threads[i].garbage;
             g' == g || (g != [] && g' == g[1..]) || (|g'| == |g| + 1 && g' == g + [g'[|g|]] && g'[|g|].deleteEpoch == s.epoch)
    ensures InOrder(s', i)
  {
  }

  lemma {:induction false} RunInOrder(states: seq<State>, steps: seq<Step>, i: nat, k: nat)
    requires Run(states, steps) && k <= |steps| && i < |states[k].threads|
    ensures InOrder(states[k], i)
  {
    SameThreads(states, steps, k);
    if k > 0 {
      SameThreads(states, steps, k - 1);
      RunInOrder(states, steps, i, k - 1);
      RunStep(states, steps, k - 1);
      hide *;
      CollectorStep(states[k - 1], steps[k - 1], i);
      EpochGrows(states[k - 1], steps[k - 1]);
      InOrderStep(states[k - 1], states[k], i);
    }
  }

  /** An entry of the list, or freed. */
  ghost predicate HandedOver(s: State, i: nat, x: Garbage)
  {
    i < |s.threads| && (Is(s, x.node, Freed) || x in s.threads[i].garbage)
  }

  lemma HandedOverStep(s: State, step: Step, i: nat, x: Garbage)
    requires Inv(s) && Enabled(s, step) && HandedOver(s, i, x)
    ensures HandedOver(After(s, step), i, x)
  {
    CollectorStep(s, step, i);
    FreedStay(s, step);
    hide Inv, Enabled, After;
    if x in s.threads[i].garbage && step == Free(i) {
      var k :| 0 <= k < |s.threads[i].garbage| && s.threads[i].garbage[k] == x;
      assert k > 0 ==> s.threads[i].garbage[1..][k - 1] == x;
    }
  }

  lemma HandsOver(s: State, i: nat, n: Ptr)
    requires Enabled(s, AddGarbage(i, n))
    ensures HandedOver(After(s, AddGarbage(i, n)), i, Garbage(s.epoch, n))
  {
  }

  lemma {:induction false} StaysHandedOver(states: seq<State>, steps: seq<Step>, i: nat, n: Ptr, r: nat, k: nat)
    requires Run(states, steps) && r < k <= |steps| && steps[r] == AddGarbage(i, n)
    ensures HandedOver(states[k], i, Garbage(states[r].epoch, n))
  {
    hide *;
    RunStep(states, steps, k - 1);
    RunStep(states, steps, r);
    if k == r + 1 {
      HandsOver(states[r], i, n);
    } else {
      StaysHandedOver(states, steps, i, n, r, k - 1);
      RunKeeps(states, steps, k - 1);
      HandedOverStep(states[k - 1], steps[k - 1], i, Garbage(states[r].epoch, n));
    }
  }

  /** A node is freed by every complete collection of the thread that handed it over during which all
      threads show a later epoch than the one it was handed over in. */
  lemma OldIsFreed(states: seq<State>, steps: seq<Step>, i: nat, n: Ptr, r: nat, b: nat, e: nat)
    requires Run(states, steps) && r < b < e < |steps| && steps[r] == AddGarbage(i, n)
    requires steps[b] == StartGc(i) && steps[e] == EndGc(i) && forall k :: b < k < e ==> steps[k] != StartGc(i)
    requires forall k, j :: b <= k < e && 0 <= j < |states[k].threads| ==> states[r].epoch < states[k].threads[j].lastActive
    ensures Is(states[e + 1], n, Freed)
  {
    var x := Garbage(states[r].epoch, n);
    StaysHandedOver(states, steps, i, n, r, b);
    var times, min := CollectionEnds(states, steps, i, e);
    GatheredIs(states, steps, i, e, times, min);
    assert times[0] == b;
    RunInOrder(states, steps, i, b);
    MinAbove(states, steps, i, e, times, min, states[r].epoch);
    var g := states[b].threads[i].garbage;
    if Is(states[b], n, Freed) {
      hide Run;
      FreedForGood(states, steps, n, b, e + 1);
    } else {
      hide Run, Gathered, Is;
      FrontHolds(g, min, x);
    }
  }

  lemma MinAbove(states: seq<State>, steps: seq<Step>, i: nat, e: nat, times: seq<nat>, min: nat, epoch: nat)
    requires Gathered(states, steps, i, e, times, min)
    requires forall k, j :: times[0] <= k < e && 0 <= j < |states[k].threads| ==> epoch < states[k].threads[j].lastActive
    ensures epoch < min
  {
    var j :| 0 <= j < |times| && min == states[times[j]].threads[j].lastActive;
    assert times[0] <= times[j] < e;
  }

  lemma FrontHolds(g: seq<Garbage>, min: nat, x: Garbage)
    requires x in g && x.deleteEpoch < min && forall k, l :: 0 <= k < l < |g| ==> g[k].deleteEpoch <= g[l].deleteEpoch
    ensures exists k :: 0 <= k < Older(g, min) && g[k] == x
  {
    var k :| 0 <= k < |g| && g[k] == x;
    assert k < Older(g, min);
  }
}
