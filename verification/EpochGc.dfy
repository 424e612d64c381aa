/** Epoch-based reclamation with one garbage list per thread.

Reading the global epoch, storing it, and reading the epochs of all threads one after the other are
separate steps; other threads may act between any two of them. */
module EpochGc {

  type Ptr = nat

  /** What `UnregisterThread` stores. */
  const OFF: nat := 0xFFFF_FFFF_FFFF_FFFF

  const GC_NODE_COUNT_THREADHOLD: nat := 1024

  datatype Garbage = Garbage(deleteEpoch: nat, node: Ptr)

  /** `PerformGC`: called but not begun, or in progress with the minimum over the threads read so far, or
      over all. */
  datatype Gc = NoGc | Due | Summarizing(next: nat, min: nat) | Collecting(min: nat)

  /** A value of the global epoch that was read but not yet stored by `UpdateLastActiveEpoch`. */
  datatype Pending = Nothing | Joining(epoch: nat) | Leaving(epoch: nat)

  /** `refs` are the nodes the running operation has come across; `since` are all nodes that were
      unlinked, by any thread, since the operation joined its epoch. */
  datatype Thread = Thread(lastActive: nat, pending: Pending, running: bool, refs: set<Ptr>, since: set<Ptr>,
    garbage: seq<Garbage>, nodeCount: nat, gc: Gc)

  /** Where a node is: made by a thread and not yet visible, in the tree, unlinked (or given up) but not
      yet handed over, in the garbage list of a thread, or freed. */
  datatype Place = Made(owner: nat) | Linked | Owed(owner: nat) | InGarbage(owner: nat) | Freed

  datatype State = State(epoch: nat, threads: seq<Thread>, place: map<Ptr, Place>)

  datatype Step =
    | IncreaseEpoch
    | ReadToJoin(i: nat)
    | Join(i: nat)
    | Touch(i: nat, node: Ptr)
    | Make(i: nat, node: Ptr)
    | Link(i: nat, node: Ptr)
    | GiveUp(i: nat, node: Ptr)
    | Unlink(i: nat, node: Ptr)
    | AddGarbage(i: nat, node: Ptr)
    | StartGc(i: nat)
    | ReadNext(i: nat)
    | Free(i: nat)
    | EndGc(i: nat)
    | ReadToLeave(i: nat)
    | Leave(i: nat)
    | Unregister(i: nat)

  function Min(a: nat, b: nat): nat
  {
    if b < a then b else a
  }

  /** The thread is in the middle of nothing else. */
  predicate Ready(t: Thread)
  {
    t.gc.NoGc? && t.pending.Nothing?
  }

  predicate InOperation(t: Thread)
  {
    Ready(t) && t.running
  }

  predicate Is(s: State, n: Ptr, p: Place)
  {
    n in s.place && s.place[n] == p
  }

  predicate Enabled(s: State, step: Step)
  {
    if step.IncreaseEpoch? then s.epoch + 1 < OFF
    else
      && step.i < |s.threads|
      && var t := s.threads[step.i];
         match step
         case ReadToJoin(i) => Ready(t) && !t.running
         case Join(i) => t.pending.Joining?
         case Touch(i, n) => InOperation(t) && Is(s, n, Linked)
         case Make(i, n) => InOperation(t) && n !in s.place
         case Link(i, n) => InOperation(t) && Is(s, n, Made(i))
         case GiveUp(i, n) => InOperation(t) && Is(s, n, Made(i))
         case Unlink(i, n) => InOperation(t) && Is(s, n, Linked)
         case AddGarbage(i, n) => InOperation(t) && Is(s, n, Owed(i))
         case StartGc(i) => t.gc.Due?
         case ReadNext(i) => t.gc.Summarizing?
         case Free(i) => t.gc.Collecting? && t.garbage != [] && t.garbage[0].deleteEpoch < t.gc.min
         case EndGc(i) => t.gc.Collecting? && (t.garbage == [] || t.gc.min <= t.garbage[0].deleteEpoch)
         case ReadToLeave(i) => InOperation(t)
         case Leave(i) => t.pending.Leaving?
         case Unregister(i) => Ready(t) && !t.running
         case IncreaseEpoch => true
  }

  function Set(s: State, i: nat, t: Thread): State
    requires i < |s.threads|
  {
    s.(threads := s.threads[i := t])
  }

  function Put(s: State, n: Ptr, p: Place): State
  {
    s.(place := s.place[n := p])
  }

  /** Every running operation from now on knows that the node was unlinked. */
  function Noting(threads: seq<Thread>, n: Ptr): (r: seq<Thread>)
    ensures |r| == |threads|
    ensures forall j :: 0 <= j < |threads| ==> r[j] == threads[j].(since := threads[j].since + {n})
  {
    seq(|threads|, j requires 0 <= j < |threads| => threads[j].(since := threads[j].since + {n}))
  }

  function After(s: State, step: Step): State
    requires Enabled(s, step)
  {
    if step.IncreaseEpoch? then s.(epoch := s.epoch + 1)
    else
      var t := s.threads[step.i];
      match step
      case ReadToJoin(i) => Set(s, i, t.(pending := Joining(s.epoch)))
      case Join(i) => Set(s, i, t.(lastActive := t.pending.epoch, pending := Nothing, running := true, refs := {}, since := {}))
      case Touch(i, n) => Set(s, i, t.(refs := t.refs + {n}))
      case Make(i, n) => Put(s, n, Made(i))
      case Link(i, n) => Put(s, n, Linked)
      case GiveUp(i, n) => Put(s, n, Owed(i))
      case Unlink(i, n) => Put(s, n, Owed(i)).(threads := Noting(s.threads, n))
      case AddGarbage(i, n) =>
        Put(Set(s, i, t.(garbage := t.garbage + [Garbage(s.epoch, n)], nodeCount := t.nodeCount + 1,
                         gc := if GC_NODE_COUNT_THREADHOLD < t.nodeCount + 1 then Due else NoGc)), n, InGarbage(i))
      case StartGc(i) => Set(s, i, t.(gc := Summarizing(1, s.threads[0].lastActive)))
      case ReadNext(i) =>
        if t.gc.next < |s.threads|
        then Set(s, i, t.(gc := Summarizing(t.gc.next + 1, Min(t.gc.min, s.threads[t.gc.next].lastActive))))
        else Set(s, i, t.(gc := Collecting(t.gc.min)))
      case Free(i) =>
        Put(Set(s, i, t.(garbage := t.garbage[1..], nodeCount := if t.nodeCount == 0 then 0 else t.nodeCount - 1)), t.garbage[0].node, Freed)
      case EndGc(i) => Set(s, i, t.(gc := NoGc))
      case ReadToLeave(i) => Set(s, i, t.(pending := Leaving(s.epoch), running := false, refs := {}, since := {}))
      case Leave(i) => Set(s, i, t.(lastActive := t.pending.epoch, pending := Nothing))
      case Unregister(i) => Set(s, i, t.(lastActive := OFF))
      case IncreaseEpoch => s
  }

  predicate Init(s: State)
  {
    s.place == map[] && s.epoch == 0 && forall i :: 0 <= i < |s.threads| ==> s.threads[i] == Thread(0, Nothing, false, {}, {}, [], 0, NoGc)
  }

  // ------------------------------------------------------------------------------------
  // The invariant
  // ------------------------------------------------------------------------------------

  /** Epochs are those of the past; a running operation shows when it began. */
  ghost predicate Clocked(epoch: nat, t: Thread)
  {
    && epoch < OFF
    && (t.running ==> t.lastActive <= epoch && (t.pending.Nothing?))
    && (!t.pending.Nothing? ==> t.pending.epoch <= epoch && t.gc.NoGc?)
  }

  /** A garbage list holds exactly the nodes that are in it, each once, and counts them. */
  ghost predicate Listed(s: State, i: nat)
    requires i < |s.threads|
  {
    var g := s.threads[i].garbage;
    && s.threads[i].nodeCount == |g|
    && (forall k :: 0 <= k < |g| ==> Is(s, g[k].node, InGarbage(i)))
    && (forall k, l :: 0 <= k < l < |g| ==> g[k].node != g[l].node)
    && (forall n :: Is(s, n, InGarbage(i)) ==> exists k :: 0 <= k < |g| && g[k].node == n)
  }

  /** What an operation has come across is linked, or was unlinked after it joined. */
  ghost predicate Covered(s: State, t: Thread)
  {
    t.running ==> forall n :: n in t.refs ==> n in t.since || Is(s, n, Linked)
  }

  /** A node unlinked after an operation joined is not freed, and if it is garbage its epoch is not
      below that of the operation, nor below the minimum a collection has found or will find. */
  ghost predicate Protected(s: State, g: nat, j: nat, k: nat)
    requires g < |s.threads| && j < |s.threads| && k < |s.threads[g].garbage|
  {
    var t, x, gc := s.threads[j], s.threads[g].garbage[k], s.threads[g].gc;
    t.running && x.node in t.since ==>
      && t.lastActive <= x.deleteEpoch
      && (gc.Collecting? ==> gc.min <= x.deleteEpoch)
      && (gc.Summarizing? && j < gc.next ==> gc.min <= x.deleteEpoch)
  }

  /** What was unlinked since an operation joined is on its way to the garbage, not beyond. */
  ghost predicate Unlinked(s: State, t: Thread)
  {
    t.running ==> forall n :: n in t.since ==> n in s.place && (s.place[n].Owed? || s.place[n].InGarbage?)
  }

  ghost predicate AllProtected(s: State)
  {
    forall g, j, k :: 0 <= g < |s.threads| && 0 <= j < |s.threads| && 0 <= k < |s.threads[g].garbage| ==> Protected(s, g, j, k)
  }

  ghost predicate AllListed(s: State)
  {
    forall i :: 0 <= i < |s.threads| ==> Listed(s, i)
  }

  ghost predicate AllThreads(s: State)
  {
    s.epoch < OFF && forall i :: 0 <= i < |s.threads| ==>
      Clocked(s.epoch, s.threads[i]) && Covered(s, s.threads[i]) && Unlinked(s, s.threads[i])
  }

  ghost predicate Inv(s: State)
  {
    AllThreads(s) && AllListed(s) && AllProtected(s)
  }

  /** Freeing is safe: the node is in the list and not freed before, and no running operation has come
      across it, or joined before it was unlinked. */
  lemma FreeIsSafe(s: State, i: nat)
    requires Inv(s) && Enabled(s, Free(i))
    ensures Is(s, s.threads[i].garbage[0].node, InGarbage(i))
    ensures forall j :: 0 <= j < |s.threads| && s.threads[j].running ==>
      s.threads[i].garbage[0].node !in s.threads[j].since && s.threads[i].garbage[0].node !in s.threads[j].refs
  {
    var n := s.threads[i].garbage[0].node;
    assert Listed(s, i);
    forall j | 0 <= j < |s.threads| && s.threads[j].running
      ensures n !in s.threads[j].since && n !in s.threads[j].refs
    {
      assert Protected(s, i, j, 0);
      assert Covered(s, s.threads[j]);
    }
  }

  // ------------------------------------------------------------------------------------
  // Every step keeps it
  // ------------------------------------------------------------------------------------

  /** Only the thread of a step changes, except that all learn of an unlinked node. */
  lemma OthersSame(s: State, step: Step, j: nat)
    requires Enabled(s, step) && j < |s.threads|
    ensures |After(s, step).threads| == |s.threads|
    ensures var t, t' := s.threads[j], After(s, step).threads[j];
            step.IncreaseEpoch? || j != step.i ==> t' == if step.Unlink? then t.(since := t.since + {step.node}) else t
  {
  }

  lemma ClockedKept(s: State, step: Step, j: nat)
    requires Enabled(s, step) && j < |s.threads| && Clocked(s.epoch, s.threads[j]) && (step.IncreaseEpoch? ==> s.epoch + 1 < OFF)
    ensures Clocked(After(s, step).epoch, After(s, step).threads[j])
  {
    OthersSame(s, step, j);
  }

  lemma CoveredKept(s: State, step: Step, j: nat)
    requires Inv(s) && Enabled(s, step) && j < |s.threads|
    ensures Covered(After(s, step), After(s, step).threads[j])
  {
    OthersSame(s, step, j);
    hide AllListed, AllProtected, Clocked, Unlinked;
    if step.Free? { FreeIsSafe(s, step.i); }
    assert Covered(s, s.threads[j]);
  }

  lemma UnlinkedKept(s: State, step: Step, j: nat)
    requires Inv(s) && Enabled(s, step) && j < |s.threads|
    ensures Unlinked(After(s, step), After(s, step).threads[j])
  {
    OthersSame(s, step, j);
    if step.Free? { FreeIsSafe(s, step.i); }
    hide AllListed, AllProtected, Clocked, Covered;
    assert Unlinked(s, s.threads[j]);
  }

  lemma ListedKept(s: State, step: Step, j: nat)
    requires AllListed(s) && Enabled(s, step) && j < |s.threads|
    ensures Listed(After(s, step), j)
  {
    OthersSame(s, step, j);
    if step.Free? && step.i == j {
      ListedFree(s, j);
    } else if step.AddGarbage? && step.i == j {
      ListedAdd(s, step);
    } else {
      ListedSame(s, step, j);
    }
  }

  lemma ListedSame(s: State, step: Step, j: nat)
    requires AllListed(s) && Enabled(s, step) && j < |s.threads|
    requires step.Free? || step.AddGarbage? ==> step.i != j
    ensures Listed(After(s, step), j)
  {
    OthersSame(s, step, j);
    assert Listed(s, j);
    if step.Free? { assert Listed(s, step.i); }
    var s' := After(s, step);
    forall n
      ensures Is(s', n, InGarbage(j)) <==> Is(s, n, InGarbage(j))
    {
    }
    hide Is;
    assert s'.threads[j].garbage == s.threads[j].garbage && s'.threads[j].nodeCount == s.threads[j].nodeCount;
  }

  lemma ListedFree(s: State, i: nat)
    requires AllListed(s) && Enabled(s, Free(i))
    ensures Listed(After(s, Free(i)), i)
  {
    var g := s.threads[i].garbage;
    assert Listed(s, i);
    var s' := After(s, Free(i));
    assert forall k :: 0 <= k < |g| - 1 ==> s'.threads[i].garbage[k] == g[k + 1];
    forall n | Is(s', n, InGarbage(i))
      ensures exists k :: 0 <= k < |g| - 1 && s'.threads[i].garbage[k].node == n
    {
      assert Is(s, n, InGarbage(i));
      var k :| 0 <= k < |g| && g[k].node == n;
      assert s'.threads[i].garbage[k - 1].node == n;
    }
  }

  lemma ListedAdd(s: State, step: Step)
    requires AllListed(s) && step.AddGarbage? && Enabled(s, step)
    ensures Listed(After(s, step), step.i)
  {
    var i := step.i;
    var g := s.threads[i].garbage;
    assert Listed(s, i);
    var s' := After(s, step);
    var g' := s'.threads[i].garbage;
    assert g' == g + [Garbage(s.epoch, step.node)];
    forall n | Is(s', n, InGarbage(i))
      ensures exists k :: 0 <= k < |g'| && g'[k].node == n
    {
      if n == step.node {
        assert g'[|g|].node == n;
      } else {
        assert Is(s, n, InGarbage(i));
        var k :| 0 <= k < |g| && g[k].node == n;
        assert g'[k].node == n;
      }
    }
  }

  lemma ProtectedKept(s: State, step: Step, g: nat, j: nat, k: nat)
    requires Inv(s) && Enabled(s, step) && g < |s.threads| && j < |s.threads| && k < |After(s, step).threads[g].garbage|
    ensures Protected(After(s, step), g, j, k)
  {
    OthersSame(s, step, g);
    OthersSame(s, step, j);
    if step.Free? && step.i == g {
      assert Protected(s, g, j, k + 1);
    } else if k < |s.threads[g].garbage| {
      assert Protected(s, g, j, k);
      NotLinkedGarbage(s, g, k);
    } else {
      assert Clocked(s.epoch, s.threads[j]);
    }
  }

  lemma NotLinkedGarbage(s: State, g: nat, k: nat)
    requires AllListed(s) && g < |s.threads| && k < |s.threads[g].garbage|
    ensures Is(s, s.threads[g].garbage[k].node, InGarbage(g))
  {
    assert Listed(s, g);
  }

  lemma StepKeeps(s: State, step: Step)
    requires Inv(s) && Enabled(s, step)
    ensures Inv(After(s, step))
  {
    var s' := After(s, step);
    forall j | 0 <= j < |s'.threads|
      ensures Clocked(s'.epoch, s'.threads[j]) && Covered(s', s'.threads[j]) && Unlinked(s', s'.threads[j]) && Listed(s', j)
    {
      OthersSame(s, step, j);
      ClockedKept(s, step, j);
      CoveredKept(s, step, j);
      UnlinkedKept(s, step, j);
      ListedKept(s, step, j);
    }
    forall g, j, k | 0 <= g < |s'.threads| && 0 <= j < |s'.threads| && 0 <= k < |s'.threads[g].garbage|
      ensures Protected(s', g, j, k)
    {
      ProtectedKept(s, step, g, j, k);
    }
  }

  ghost predicate Run(states: seq<State>, steps: seq<Step>)
  {
    && |states| == |steps| + 1 && Init(states[0])
    && forall i :: 0 <= i < |steps| ==> Enabled(states[i], steps[i]) && states[i + 1] == After(states[i], steps[i])
  }

  lemma {:induction false} RunKeeps(states: seq<State>, steps: seq<Step>, i: nat)
    requires Run(states, steps) && i <= |steps|
    ensures Inv(states[i])
  {
    if i == 0 {
      InitInv(states[0]);
    } else {
      RunKeeps(states, steps, i - 1);
      hide Inv, Enabled, After;
      StepKeeps(states[i - 1], steps[i - 1]);
      assert states[i - 1 + 1] == states[i];
    }
  }

  lemma InitInv(s: State)
    requires Init(s)
    ensures Inv(s)
  {
  }

  lemma {:induction false} FreedForGood(states: seq<State>, steps: seq<Step>, n: Ptr, i: nat, j: nat)
    requires Run(states, steps) && i <= j <= |steps| && Is(states[i], n, Freed)
    ensures Is(states[j], n, Freed)
    decreases j - i
  {
    if i < j {
      FreedForGood(states, steps, n, i, j - 1);
      RunKeeps(states, steps, j - 1);
      assert states[j - 1 + 1] == states[j];
      hide Run;
      StaysFreed(states[j - 1], steps[j - 1], n);
    }
  }

  lemma StaysFreed(s: State, step: Step, n: Ptr)
    requires Inv(s) && Enabled(s, step) && Is(s, n, Freed)
    ensures Is(After(s, step), n, Freed)
  {
    if step.Free? { FreeIsSafe(s, step.i); }
  }

  /** Any number of threads, any run: nothing is freed that was unlinked after a still running
      operation joined, nothing is freed twice, and every list counts its entries. */
  lemma EveryRun(states: seq<State>, steps: seq<Step>, i: nat)
    requires Run(states, steps) && i < |steps|
    ensures forall j :: 0 <= j < |states[i].threads| ==> states[i].threads[j].nodeCount == |states[i].threads[j].garbage|
    ensures steps[i].Free? ==>
      var n := states[i].threads[steps[i].i].garbage[0].node;
      && (forall j :: 0 <= j < |states[i].threads| && states[i].threads[j].running ==>
            n !in states[i].threads[j].since && n !in states[i].threads[j].refs)
      && (forall j :: i < j < |steps| && steps[j].Free? ==> states[j].threads[steps[j].i].garbage[0].node != n)
  {
    RunKeeps(states, steps, i);
    assert Enabled(states[i], steps[i]) && states[i + 1] == After(states[i], steps[i]);
    if steps[i].Free? {
      var n := states[i].threads[steps[i].i].garbage[0].node;
      FreeIsSafe(states[i], steps[i].i);
      assert Is(states[i + 1], n, Freed);
      forall j | i < j < |steps| && steps[j].Free?
        ensures Enabled(states[j], steps[j]) && states[j].threads[steps[j].i].garbage[0].node != n
      {
        FreedForGood(states, steps, n, i + 1, j);
        RunKeeps(states, steps, j);
        hide Run, Inv;
        FreeIsSafe(states[j], steps[j].i);
      }
    }
    ListsCount(states[i]);
  }

  lemma ListsCount(s: State)
    requires Inv(s)
    ensures forall j :: 0 <= j < |s.threads| ==> s.threads[j].nodeCount == |s.threads[j].garbage|
  {
    forall j | 0 <= j < |s.threads|
      ensures s.threads[j].nodeCount == |s.threads[j].garbage|
    {
      assert Listed(s, j);
    }
  }
}
