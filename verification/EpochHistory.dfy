/** Epoch-based reclamation as the steps of a run tell it: what an operation has come across, which epoch
a thread shows, and when a collection is due. */
module EpochHistory {
  import opened EpochGc
  import opened EpochCollect

  // ------------------------------------------------------------------------------------
  // What a running operation may still use
  // ------------------------------------------------------------------------------------

  /** The operation that thread `j` began in step `a` has not ended in state `k`. */
  predicate Working(steps: seq<Step>, j: nat, a: nat, k: nat)
  {
    a < k <= |steps| && steps[a] == Join(j) && forall l :: a < l < k ==> steps[l] != ReadToLeave(j)
  }

  predicate Holds(s: State, j: nat, n: Ptr)
  {
    j < |s.threads| && s.threads[j].running && (n in s.threads[j].refs || n in s.threads[j].since)
  }

  lemma Begins(s: State, step: Step, j: nat)
    requires Enabled(s, step) && step == Join(j)
    ensures j < |After(s, step).threads| && After(s, step).threads[j].running
  {
  }

  lemma RunsOn(s: State, step: Step, j: nat)
    requires Inv(s) && Enabled(s, step) && j < |s.threads| && s.threads[j].running && step != ReadToLeave(j)
    ensures j < |After(s, step).threads| && After(s, step).threads[j].running
    ensures step != Join(j) && forall n :: Holds(s, j, n) ==> Holds(After(s, step), j, n)
    ensures forall n :: step == Touch(j, n) || (step.Unlink? && step.node == n) ==> Holds(After(s, step), j, n)
  {
    assert Clocked(s.epoch, s.threads[j]);
    hide AllListed, AllProtected, AllThreads;
  }

  lemma HeldNotFreed(s: State, j: nat, n: Ptr)
    requires Inv(s) && Holds(s, j, n)
    ensures n in s.place && s.place[n] != Freed
  {
    assert Covered(s, s.threads[j]) && Unlinked(s, s.threads[j]);
    hide AllListed, AllProtected, AllThreads;
  }

  lemma {:induction false} WorkingRuns(states: seq<State>, steps: seq<Step>, j: nat, a: nat, k: nat)
    requires Run(states, steps) && Working(steps, j, a, k)
    ensures j < |states[k].threads| && states[k].threads[j].running
  {
    hide *;
    WorkingBefore(steps, j, a, k);
    RunStep(states, steps, k - 1);
    if k == a + 1 {
      RunStep(states, steps, a);
      Begins(states[a], steps[a], j);
    } else {
      WorkingRuns(states, steps, j, a, k - 1);
      RunKeeps(states, steps, k - 1);
      RunsOn(states[k - 1], steps[k - 1], j);
    }
  }

  lemma WorkingBefore(steps: seq<Step>, j: nat, a: nat, k: nat)
    requires Working(steps, j, a, k)
    ensures a < k <= |steps| && steps[a] == Join(j) && (k == a + 1 || (Working(steps, j, a, k - 1) && steps[k - 1] != ReadToLeave(j)))
  {
  }

  lemma {:induction false} WorkingHolds(states: seq<State>, steps: seq<Step>, j: nat, n: Ptr, a: nat, c: nat, k: nat)
    requires Run(states, steps) && Working(steps, j, a, k) && a < c < k && (steps[c] == Touch(j, n) || (steps[c].Unlink? && steps[c].node == n))
    ensures Holds(states[k], j, n)
  {
    hide *;
    WorkingBefore(steps, j, a, k);
    RunStep(states, steps, k - 1);
    WorkingRuns(states, steps, j, a, k - 1);
    RunKeeps(states, steps, k - 1);
    RunsOn(states[k - 1], steps[k - 1], j);
    if k > c + 1 {
      WorkingHolds(states, steps, j, n, a, c, k - 1);
    }
  }

  /** In any run: what an operation has come across, and what any thread has unlinked since it began, is
      not freed as long as the operation runs. */
  lemma HeldIsSafe(states: seq<State>, steps: seq<Step>, j: nat, n: Ptr, a: nat, c: nat, k: nat)
    requires Run(states, steps) && Working(steps, j, a, k) && a < c < k && (steps[c] == Touch(j, n) || (steps[c].Unlink? && steps[c].node == n))
    ensures n in states[k].place && states[k].place[n] != Freed
  {
    hide *;
    WorkingBefore(steps, j, a, k);
    RunStep(states, steps, k - 1);
    WorkingHolds(states, steps, j, n, a, c, k);
    RunKeeps(states, steps, k);
    HeldNotFreed(states[k], j, n);
  }

  // ------------------------------------------------------------------------------------
  // The epoch a thread shows
  // ------------------------------------------------------------------------------------

  /** How often the epoch was increased. */
  function Increases(steps: seq<Step>): nat
  {
    if steps == [] then 0 else Increases(steps[..|steps| - 1]) + if steps[|steps| - 1].IncreaseEpoch? then 1 else 0
  }

  /** The epoch that thread `j` read last to join or to leave. */
  function LastRead(steps: seq<Step>, j: nat): nat
  {
    if steps == [] then 0 else
      var front, last := steps[..|steps| - 1], steps[|steps| - 1];
      if last == ReadToJoin(j) || last == ReadToLeave(j) then Increases(front) else LastRead(front, j)
  }

  /** What it shows: what it had read when it last joined or left, unless it unregistered since. */
  function Shown(steps: seq<Step>, j: nat): nat
  {
    if steps == [] then 0 else
      var front, last := steps[..|steps| - 1], steps[|steps| - 1];
      if last == Join(j) || last == Leave(j) then LastRead(front, j) else if last == Unregister(j) then OFF else Shown(front, j)
  }

  ghost predicate Told(s: State, steps: seq<Step>, j: nat)
  {
    && s.epoch == Increases(steps) && j < |s.threads| && s.threads[j].lastActive == Shown(steps, j)
    && (!s.threads[j].pending.Nothing? ==> s.threads[j].pending.epoch == LastRead(steps, j))
  }

  lemma OneMore(steps: seq<Step>, step: Step, j: nat)
    ensures Increases(steps + [step]) == Increases(steps) + if step.IncreaseEpoch? then 1 else 0
    ensures LastRead(steps + [step], j) == if step == ReadToJoin(j) || step == ReadToLeave(j) then Increases(steps) else LastRead(steps, j)
    ensures Shown(steps + [step], j) == if step == Join(j) || step == Leave(j) then LastRead(steps, j) else if step == Unregister(j) then OFF else Shown(steps, j)
  {
    assert (steps + [step])[..|steps|] == steps;
  }

  lemma ToldStep(s: State, steps: seq<Step>, step: Step, j: nat)
    requires Enabled(s, step) && Told(s, steps, j)
    ensures Told(After(s, step), steps + [step], j)
  {
    OneMore(steps, step, j);
    hide Increases, LastRead, Shown;
  }

  /** In any run every thread shows the epoch there was when it last read it. */
  lemma {:induction false} EpochIsShown(states: seq<State>, steps: seq<Step>, j: nat, k: nat)
    requires Run(states, steps) && j < |states[0].threads| && k <= |steps|
    ensures Told(states[k], steps[..k], j)
  {
    if k > 0 {
      EpochIsShown(states, steps, j, k - 1);
      RunStep(states, steps, k - 1);
      hide *;
      assert steps[..k] == steps[..k - 1] + [steps[k - 1]];
      ToldStep(states[k - 1], steps[..k - 1], steps[k - 1], j);
    }
  }

  // ------------------------------------------------------------------------------------
  // When a collection is due
  // ------------------------------------------------------------------------------------

  predicate By(step: Step, i: nat)
  {
    !step.IncreaseEpoch? && step.i == i
  }

  /** The last step of thread `i` before `k` made its list too long. */
  ghost predicate Overfull(states: seq<State>, steps: seq<Step>, i: nat, k: nat)
    requires k <= |steps| < |states|
  {
    exists r :: 0 <= r < k && Overfills(states, steps, i, r) && forall l :: r < l < k ==> !By(steps[l], i)
  }

  predicate Overfills(states: seq<State>, steps: seq<Step>, i: nat, r: nat)
    requires r < |steps| < |states|
  {
    steps[r].AddGarbage? && steps[r].i == i && i < |states[r + 1].threads| && GC_NODE_COUNT_THREADHOLD < |states[r + 1].threads[i].garbage|
  }

  lemma OverfullStep(states: seq<State>, steps: seq<Step>, i: nat, k: nat)
    requires k < |steps| < |states|
    ensures Overfull(states, steps, i, k + 1) <==> Overfills(states, steps, i, k) || (Overfull(states, steps, i, k) && !By(steps[k], i))
  {
    hide Overfills;
    if Overfull(states, steps, i, k) && !By(steps[k], i) {
      var r :| 0 <= r < k && Overfills(states, steps, i, r) && forall l :: r < l < k ==> !By(steps[l], i);
      assert forall l :: r < l < k + 1 ==> !By(steps[l], i);
    }
    if Overfull(states, steps, i, k + 1) {
      var r :| 0 <= r < k + 1 && Overfills(states, steps, i, r) && forall l :: r < l < k + 1 ==> !By(steps[l], i);
      if r < k { assert !By(steps[k], i); }
    }
  }

  lemma DueStep(s: State, step: Step, i: nat)
    requires Enabled(s, step) && i < |s.threads| && s.threads[i].nodeCount == |s.threads[i].garbage| && Clocked(s.epoch, s.threads[i])
    ensures |After(s, step).threads| == |s.threads|
    ensures var t, t' := s.threads[i], After(s, step).threads[i];
            t'.gc.Due? <==> (step.AddGarbage? && step.i == i && GC_NODE_COUNT_THREADHOLD < |t'.garbage|) || (t.gc.Due? && !By(step, i))
  {
  }

  lemma IsClocked(s: State, i: nat)
    requires Inv(s) && i < |s.threads|
    ensures Clocked(s.epoch, s.threads[i])
  {
  }

  lemma {:induction false} DueExactly(states: seq<State>, steps: seq<Step>, i: nat, k: nat)
    requires Run(states, steps) && i < |states[0].threads| && k <= |steps|
    ensures |states| == |steps| + 1 && i < |states[k].threads|
    ensures states[k].threads[i].gc.Due? <==> Overfull(states, steps, i, k)
  {
    SameThreads(states, steps, k);
    if k > 0 {
      DueExactly(states, steps, i, k - 1);
      RunStep(states, steps, k - 1);
      RunKeeps(states, steps, k - 1);
      hide *;
      ListsCount(states[k - 1]);
      IsClocked(states[k - 1], i);
      DueStep(states[k - 1], steps[k - 1], i);
      OverfullStep(states, steps, i, k - 1);
      OverfillsIs(states, steps, i, k - 1);
    }
  }

  lemma OverfillsIs(states: seq<State>, steps: seq<Step>, i: nat, r: nat)
    requires r < |steps| < |states|
    ensures Overfills(states, steps, i, r) <==>
              steps[r].AddGarbage? && steps[r].i == i && i < |states[r + 1].threads| && GC_NODE_COUNT_THREADHOLD < |states[r + 1].threads[i].garbage|
  {
  }

  lemma DueMeans(s: State, i: nat)
    requires i < |s.threads|
    ensures Enabled(s, StartGc(i)) <==> s.threads[i].gc.Due?
    ensures s.threads[i].gc.Due? ==> forall step :: By(step, i) && step != StartGc(i) && Inv(s) ==> !Enabled(s, step)
  {
    if Inv(s) { assert Clocked(s.epoch, s.threads[i]); }
  }

  /** In any run a thread begins a collection exactly when its last step was to hand over a node and
      more than the threshold were on its list then; it does nothing else before. */
  lemma StartsExactly(states: seq<State>, steps: seq<Step>, i: nat, k: nat)
    requires Run(states, steps) && i < |states[0].threads| && k <= |steps|
    ensures |states| == |steps| + 1
    ensures Enabled(states[k], StartGc(i)) <==> Overfull(states, steps, i, k)
    ensures Overfull(states, steps, i, k) ==> forall step :: By(step, i) && step != StartGc(i) ==> !Enabled(states[k], step)
  {
    hide *;
    DueExactly(states, steps, i, k);
    RunKeeps(states, steps, k);
    DueMeans(states[k], i);
  }
}
