/** The stack of free NodeIDs: one producer, any number of poppers, and a top that carries a version.

Loading the top, reading the slot below it and swapping the top are separate steps; the producer
takes the top away while it writes, and puts it back with the next version. */
module AtomicStack {

  type T = nat

  /** `VersionedPointer`: a position in the data array, one below the first slot if nothing is there. */
  datatype Top = Null | At(pos: int, version: nat)

  /** The producer between exchanging the top and storing it: the position it found, the one it has
      come to, and the version. */
  datatype Producer = Resting | Writing(base: int, pos: int, version: nat)

  /** A popper after loading the top, and after reading the slot. */
  datatype Popper = Idle | Loaded(pos: int, version: nat) | Read(pos: int, version: nat, item: T)

  /** `tops` are all non-null values the top ever had; `pushed` and `popped` are the items handed in
      and out so far, in order. */
  datatype State = State(data: seq<T>, top: Top, producer: Producer, poppers: map<nat, Popper>,
    tops: seq<Top>, pushed: seq<T>, popped: seq<T>)

  datatype Step =
    | PreparePush
    | Write(item: T)
    | CommitPush
    | Load(p: nat)
    | ReadSlot(p: nat)
    | Swap(p: nat)

  function PopperOf(s: State, p: nat): Popper
  {
    if p in s.poppers then s.poppers[p] else Idle
  }

  predicate Enabled(s: State, step: Step)
  {
    match step
    case PreparePush => s.producer.Resting? && s.top.At?
    case Write(_) => s.producer.Writing? && 0 <= s.producer.pos + 1 < |s.data|
    case CommitPush => s.producer.Writing?
    case Load(p) => PopperOf(s, p).Idle?
    case ReadSlot(p) => PopperOf(s, p).Loaded? && 0 <= PopperOf(s, p).pos < |s.data|
    case Swap(p) => PopperOf(s, p).Read?
  }

  /** What a popper does with a top it has loaded: an empty or missing stack ends the pop. */
  function Seen(top: Top): Popper
  {
    if top.Null? || top.pos < 0 then Idle else Loaded(top.pos, top.version)
  }

  function SetTop(s: State, top: Top): State
  {
    s.(top := top, tops := if top.At? then s.tops + [top] else s.tops)
  }

  function After(s: State, step: Step): State
    requires Enabled(s, step)
  {
    match step
    case PreparePush => SetTop(s, Null).(producer := Writing(s.top.pos, s.top.pos, s.top.version))
    case Write(item) => s.(data := s.data[s.producer.pos + 1 := item], producer := s.producer.(pos := s.producer.pos + 1))
    case CommitPush =>
      var w := s.producer;
      SetTop(s, At(w.pos, w.version + 1)).(producer := Resting, pushed := s.pushed + Slots(s, w.base + 1, w.pos + 1))
    case Load(p) => s.(poppers := s.poppers[p := Seen(s.top)])
    case ReadSlot(p) =>
      var q := PopperOf(s, p);
      s.(poppers := s.poppers[p := Read(q.pos, q.version, s.data[q.pos])])
    case Swap(p) =>
      var q := PopperOf(s, p);
      if s.top == At(q.pos, q.version)
      then SetTop(s, At(q.pos - 1, q.version + 1)).(poppers := s.poppers[p := Idle], popped := s.popped + [q.item])
      else s.(poppers := s.poppers[p := Seen(s.top)])
  }

  function Slots(s: State, from: int, to: int): seq<T>
  {
    if 0 <= from <= to <= |s.data| then s.data[from..to] else []
  }

  predicate Init(s: State)
  {
    s.top == At(-1, 0) && s.producer.Resting? && s.poppers == map[] && s.tops == [s.top] && s.pushed == [] && s.popped == []
  }

  /** The stack as its users see it, bottom first: while the producer writes, what was there before. */
  function Contents(s: State): seq<T>
  {
    if s.top.At? then Slots(s, 0, s.top.pos + 1) else if s.producer.Writing? then Slots(s, 0, s.producer.base + 1) else []
  }

  // ------------------------------------------------------------------------------------
  // The invariant
  // ------------------------------------------------------------------------------------

  /** The version of the top, or of the top the producer has taken away. */
  function VersionNow(s: State): nat
  {
    if s.top.At? then s.top.version else if s.producer.Writing? then s.producer.version else 0
  }

  ghost predicate Placed(s: State)
  {
    && (s.top.At? <==> s.producer.Resting?)
    && (s.top.At? ==> -1 <= s.top.pos < |s.data|)
    && (s.producer.Writing? ==> -1 <= s.producer.base <= s.producer.pos < |s.data|)
  }

  /** Versions only go up: earlier tops have smaller ones, and so has every popper that has not the
      top of the moment. */
  ghost predicate Versioned(s: State)
  {
    && |s.tops| > 0 && s.tops[|s.tops| - 1].At? && s.tops[|s.tops| - 1].version == VersionNow(s)
    && (s.top.At? ==> s.tops[|s.tops| - 1] == s.top)
    && (forall i :: 0 <= i < |s.tops| ==> s.tops[i].At?)
    && (forall i, j :: 0 <= i < j < |s.tops| ==> s.tops[i].version < s.tops[j].version)
    && (forall p :: p in s.poppers && !s.poppers[p].Idle? ==> s.poppers[p].version <= VersionNow(s))
  }

  /** A popper that still has the top of the moment has read the item in it. */
  ghost predicate ReadRight(s: State)
  {
    && (forall p :: p in s.poppers && !s.poppers[p].Idle? ==> 0 <= s.poppers[p].pos < |s.data|)
    && (forall p :: p in s.poppers && s.poppers[p].Read? && s.top == At(s.poppers[p].pos, s.poppers[p].version) ==>
          s.poppers[p].item == s.data[s.poppers[p].pos])
  }

  /** Everything handed in is still there or was handed out, once each. */
  ghost predicate Conserved(s: State)
  {
    multiset(s.pushed) == multiset(s.popped) + multiset(Contents(s))
  }

  ghost predicate Inv(s: State)
  {
    Placed(s) && Versioned(s) && ReadRight(s) && Conserved(s)
  }

  lemma InitInv(s: State)
    requires Init(s)
    ensures Inv(s)
  {
  }

  lemma PlacedKept(s: State, step: Step)
    requires Inv(s) && Enabled(s, step)
    ensures Placed(After(s, step))
  {
  }

  lemma VersionedKept(s: State, step: Step)
    requires Inv(s) && Enabled(s, step)
    ensures Versioned(After(s, step))
  {
    hide Conserved;
  }

  lemma ReadRightKept(s: State, step: Step)
    requires Inv(s) && Enabled(s, step)
    ensures ReadRight(After(s, step))
  {
    hide Conserved;
  }

  /** A pop that succeeds hands out the item on top of the stack at that moment. */
  lemma PopTakesTop(s: State, p: nat)
    requires Inv(s) && Enabled(s, Swap(p)) && s.top == At(PopperOf(s, p).pos, PopperOf(s, p).version)
    ensures Contents(s) == Contents(After(s, Swap(p))) + [PopperOf(s, p).item]
    ensures After(s, Swap(p)).popped == s.popped + [PopperOf(s, p).item]
  {
  }

  lemma ConservedKept(s: State, step: Step)
    requires Inv(s) && Enabled(s, step)
    ensures Conserved(After(s, step))
  {
    var s' := After(s, step);
    if step.Swap? && s.top == At(PopperOf(s, step.p).pos, PopperOf(s, step.p).version) {
      PopTakesTop(s, step.p);
      hide Inv, Enabled, After, Contents;
      OneMoved(s.pushed, s.popped, Contents(s'), PopperOf(s, step.p).item);
    } else if step.CommitPush? {
      PushAddsItems(s);
    } else {
      SameContents(s, step);
    }
  }

  lemma OneMoved(pushed: seq<T>, popped: seq<T>, rest: seq<T>, item: T)
    requires multiset(pushed) == multiset(popped) + multiset(rest + [item])
    ensures multiset(pushed) == multiset(popped + [item]) + multiset(rest)
  {
  }

  /** A commit puts the items written on top of the stack, in order. */
  lemma PushAddsItems(s: State)
    requires Inv(s) && Enabled(s, CommitPush)
    ensures var s', items := After(s, CommitPush), Slots(s, s.producer.base + 1, s.producer.pos + 1);
            && Contents(s') == Contents(s) + items && s'.pushed == s.pushed + items && s'.popped == s.popped
            && Conserved(s')
  {
    var items := Slots(s, s.producer.base + 1, s.producer.pos + 1);
    hide Versioned, ReadRight;
    assert Slots(s, 0, s.producer.pos + 1) == Slots(s, 0, s.producer.base + 1) + items;
  }

  lemma SameContents(s: State, step: Step)
    requires Inv(s) && Enabled(s, step) && !step.CommitPush?
    requires step.Swap? ==> s.top != At(PopperOf(s, step.p).pos, PopperOf(s, step.p).version)
    ensures var s' := After(s, step);
            Contents(s') == Contents(s) && s'.pushed == s.pushed && s'.popped == s.popped
  {
    hide Versioned, ReadRight, Conserved;
  }

  lemma StepKeeps(s: State, step: Step)
    requires Inv(s) && Enabled(s, step)
    ensures Inv(After(s, step))
  {
    PlacedKept(s, step);
    VersionedKept(s, step);
    ReadRightKept(s, step);
    ConservedKept(s, step);
    hide *;
    InvIs(After(s, step));
  }

  lemma InvIs(s: State)
    ensures Inv(s) <==> Placed(s) && Versioned(s) && ReadRight(s) && Conserved(s)
  {
    hide Placed, Versioned, ReadRight, Conserved;
  }

  // ------------------------------------------------------------------------------------
  // Runs
  // ------------------------------------------------------------------------------------

  ghost predicate Run(states: seq<State>, steps: seq<Step>)
  {
    && |states| == |steps| + 1 && Init(states[0])
    && forall i :: 0 <= i < |steps| ==> Enabled(states[i], steps[i]) && states[i + 1] == After(states[i], steps[i])
  }

  lemma {:induction false} RunKeeps(states: seq<State>, steps: seq<Step>, i: nat)
    requires Run(states, steps) && i <= |steps|
    ensures Inv(states[i])
  {
    if i == 0 {
      InitInv(states[0]);
    } else {
      RunKeeps(states, steps, i - 1);
      hide Inv, Enabled, After;
      StepKeeps(states[i - 1], steps[i - 1]);
      assert states[i - 1 + 1] == states[i];
    }
  }

  // ------------------------------------------------------------------------------------
  // What the steps say was pushed
  // ------------------------------------------------------------------------------------

  /** The items written since the producer last took the top away. */
  function Buffered(steps: seq<Step>): seq<T>
  {
    if steps == [] then [] else
      var front, last := steps[..|steps| - 1], steps[|steps| - 1];
      if last.Write? then Buffered(front) + [last.item]
      else if last.PreparePush? || last.CommitPush? then []
      else Buffered(front)
  }

  /** The items of all writes that a commit has completed, in order. */
  function Committed(steps: seq<Step>): seq<T>
  {
    if steps == [] then [] else
      var front, last := steps[..|steps| - 1], steps[|steps| - 1];
      if last.CommitPush? then Committed(front) + Buffered(front) else Committed(front)
  }

  /** What the producer has put behind the stack so far. */
  function Unfinished(s: State): seq<T>
  {
    if s.producer.Writing? then Slots(s, s.producer.base + 1, s.producer.pos + 1) else []
  }

  /** It is what it was given, and so is all it has handed in. */
  ghost predicate Recorded(s: State, steps: seq<Step>)
  {
    && s.pushed == Committed(steps)
    && (s.producer.Writing? ==> Unfinished(s) == Buffered(steps))
  }

  lemma RecordedStep(s: State, steps: seq<Step>, step: Step)
    requires Inv(s) && Enabled(s, step) && Recorded(s, steps)
    ensures Recorded(After(s, step), steps + [step])
  {
    hide *;
    OneMore(steps, step);
    RecordedIs(s, steps);
    RecordedIs(After(s, step), steps + [step]);
    WrittenBy(s, step);
  }

  lemma OneMore(steps: seq<Step>, step: Step)
    ensures Buffered(steps + [step]) == if step.Write? then Buffered(steps) + [step.item] else if step.PreparePush? || step.CommitPush? then [] else Buffered(steps)
    ensures Committed(steps + [step]) == if step.CommitPush? then Committed(steps) + Buffered(steps) else Committed(steps)
  {
    assert (steps + [step])[..|steps|] == steps;
  }

  lemma RecordedIs(s: State, steps: seq<Step>)
    ensures Recorded(s, steps) <==> s.pushed == Committed(steps) && (s.producer.Writing? ==> Unfinished(s) == Buffered(steps))
  {
    hide Committed, Buffered, Slots;
  }

  lemma WrittenBy(s: State, step: Step)
    requires Inv(s) && Enabled(s, step)
    ensures var s' := After(s, step);
            && s'.pushed == (if step.CommitPush? then s.pushed + Unfinished(s) else s.pushed)
            && (s'.producer.Writing? ==> Unfinished(s') == if step.Write? then Unfinished(s) + [step.item] else if step.PreparePush? then [] else Unfinished(s))
            && (s'.producer.Writing? && !step.PreparePush? ==> s.producer.Writing? && !step.CommitPush?)
            && (step.CommitPush? || step.Write? ==> s.producer.Writing?)
  {
    hide Versioned, ReadRight, Conserved;
  }

  lemma {:induction false} RunRecords(states: seq<State>, steps: seq<Step>, i: nat)
    requires Run(states, steps) && i <= |steps|
    ensures Recorded(states[i], steps[..i])
  {
    if i > 0 {
      RunRecords(states, steps, i - 1);
      RunKeeps(states, steps, i - 1);
      assert steps[..i] == steps[..i - 1] + [steps[i - 1]] && states[i - 1 + 1] == states[i];
      hide Inv, Enabled, After, Recorded;
      RecordedStep(states[i - 1], steps[..i - 1], steps[i - 1]);
    }
  }

  // ------------------------------------------------------------------------------------
  // Every run
  // ------------------------------------------------------------------------------------

  /** Whether the step hands out an item. */
  predicate HandsOut(s: State, s': State)
  {
    |s.popped| < |s'.popped|
  }

  /** What one step does to the stack as its users see it. */
  ghost predicate StepEffect(s: State, steps: seq<Step>, step: Step, s': State)
  {
    && (step.CommitPush? ==> Contents(s') == Contents(s) + Buffered(steps) && s'.popped == s.popped)
    && (HandsOut(s, s') ==> step.Swap? && Contents(s) != [] && Contents(s') == Contents(s)[..|Contents(s)| - 1]
                            && s'.popped == s.popped + [Contents(s)[|Contents(s)| - 1]])
    && (!step.CommitPush? && !HandsOut(s, s') ==> Contents(s') == Contents(s) && s'.popped == s.popped)
    && (step.Load? || (step.Swap? && !HandsOut(s, s')) ==>
          (PopperOf(s', step.p).Idle? <==> s.producer.Writing? || Contents(s) == []))
  }

  lemma EffectOf(s: State, steps: seq<Step>, step: Step)
    requires Inv(s) && Enabled(s, step) && Recorded(s, steps)
    ensures StepEffect(s, steps, step, After(s, step))
  {
    hide *;
    var s' := After(s, step);
    RecordedIs(s, steps);
    EffectIs(s, steps, step, s');
    SwapReads(s, step);
    if step.Swap? && s.top == At(PopperOf(s, step.p).pos, PopperOf(s, step.p).version) {
      PopTakesTop(s, step.p);
      LastTaken(Contents(s), Contents(s'), PopperOf(s, step.p).item);
    } else if step.CommitPush? {
      CommitIs(s, step);
      PushAddsItems(s);
    } else {
      SameContents(s, step);
      if step.Load? || step.Swap? { GivesUp(s, step); }
    }
  }

  lemma SwapReads(s: State, step: Step)
    requires Enabled(s, step)
    ensures step.Swap? ==> PopperOf(s, step.p).Read?
  {
  }

  lemma CommitIs(s: State, step: Step)
    requires Enabled(s, step) && step.CommitPush?
    ensures s.producer.Writing? && Unfinished(s) == Slots(s, s.producer.base + 1, s.producer.pos + 1)
  {
  }

  lemma LastTaken(c: seq<T>, c': seq<T>, item: T)
    requires c == c' + [item]
    ensures c != [] && c' == c[..|c| - 1] && item == c[|c| - 1]
  {
  }

  lemma EffectIs(s: State, steps: seq<Step>, step: Step, s': State)
    ensures HandsOut(s, s') <==> |s.popped| < |s'.popped|
    ensures StepEffect(s, steps, step, s') <==>
              && (step.CommitPush? ==> Contents(s') == Contents(s) + Buffered(steps) && s'.popped == s.popped)
              && (HandsOut(s, s') ==> step.Swap? && Contents(s) != [] && Contents(s') == Contents(s)[..|Contents(s)| - 1]
                                      && s'.popped == s.popped + [Contents(s)[|Contents(s)| - 1]])
              && (!step.CommitPush? && !HandsOut(s, s') ==> Contents(s') == Contents(s) && s'.popped == s.popped)
              && (step.Load? || (step.Swap? && !HandsOut(s, s')) ==>
                    (PopperOf(s', step.p).Idle? <==> s.producer.Writing? || Contents(s) == []))
  {
    hide Contents, Buffered, PopperOf;
  }

  lemma GivesUp(s: State, step: Step)
    requires Inv(s) && Enabled(s, step) && (step.Load? || (step.Swap? && s.top != At(PopperOf(s, step.p).pos, PopperOf(s, step.p).version)))
    ensures PopperOf(After(s, step), step.p).Idle? <==> s.producer.Writing? || Contents(s) == []
  {
    hide Versioned, ReadRight, Conserved;
  }

  /** One producer, any number of poppers, any run.  No non-null top ever comes up twice.  What was
      pushed is what the writes of completed pushes carried, in order, and it is what was handed out and
      what is left.  A completed push puts its items on top, a successful pop takes the last one off, and
      nothing else changes the stack.  A pop gives up exactly if the producer has the top or the stack
      is empty. */
  lemma EveryRun(states: seq<State>, steps: seq<Step>)
    requires Run(states, steps)
    ensures var s := states[|steps|];
            && (forall i, j :: 0 <= i < j < |s.tops| ==> s.tops[i] != s.tops[j])
            && s.pushed == Committed(steps)
            && multiset(s.pushed) == multiset(s.popped) + multiset(Contents(s))
    ensures forall i :: 0 <= i < |steps| ==> StepEffect(states[i], steps[..i], steps[i], states[i + 1])
  {
    RunKeeps(states, steps, |steps|);
    RunRecords(states, steps, |steps|);
    assert steps[..|steps|] == steps;
    forall i | 0 <= i < |steps|
      ensures StepEffect(states[i], steps[..i], steps[i], states[i + 1])
    {
      RunKeeps(states, steps, i);
      RunRecords(states, steps, i);
      assert states[i + 1] == After(states[i], steps[i]) && Enabled(states[i], steps[i]);
      hide Run, Inv, Recorded, After, Enabled, StepEffect;
      EffectOf(states[i], steps[..i], steps[i]);
    }
  }

  // ------------------------------------------------------------------------------------
  // When a pop succeeds
  // ------------------------------------------------------------------------------------

  /** The top was taken away or moved since it had this version. */
  predicate Moved(s: State, version: nat)
  {
    s.producer.Writing? || version < VersionNow(s)
  }

  lemma MovedStep(s: State, step: Step, version: nat)
    requires Inv(s) && Enabled(s, step) && version <= VersionNow(s)
    ensures version <= VersionNow(After(s, step))
    ensures Moved(s, version) || step.PreparePush? || HandsOut(s, After(s, step)) ==> Moved(After(s, step), version)
    ensures !Moved(s, version) && !step.PreparePush? && !HandsOut(s, After(s, step)) ==> After(s, step).top == s.top && !Moved(After(s, step), version)
  {
    hide Versioned, ReadRight, Conserved;
  }

  /** Step `i` swaps what the popper loaded in step `j`. */
  predicate Loads(states: seq<State>, steps: seq<Step>, j: nat, i: nat, p: nat)
  {
    && j < i < |steps| < |states| && steps[i] == Swap(p) && (steps[j] == Load(p) || steps[j] == Swap(p))
    && forall k :: j < k < i ==> steps[k] != Load(p) && steps[k] != Swap(p)
  }

  /** Nobody has taken the top in a step from `j` on and before `i`. */
  predicate Undisturbed(states: seq<State>, steps: seq<Step>, j: nat, i: nat)
    requires j <= i <= |steps| < |states|
  {
    forall k :: j <= k < i ==> !steps[k].PreparePush? && !HandsOut(states[k], states[k + 1])
  }

  /** What a popper holds stays as it is until its own swap. */
  lemma HoldsStep(s: State, step: Step, p: nat)
    requires Enabled(s, step) && !PopperOf(s, p).Idle? && step != Swap(p)
    ensures var q, q' := PopperOf(s, p), PopperOf(After(s, step), p);
            !q'.Idle? && q'.pos == q.pos && q'.version == q.version
  {
  }

  /** After the load in step `j`, at `k`: the popper holds the top there was then, and whether that is
      still the top is told by the steps in between. */
  ghost predicate Holding(states: seq<State>, steps: seq<Step>, j: nat, k: nat, p: nat)
    requires j < k <= |steps| < |states|
  {
    var q, s := PopperOf(states[k], p), states[k];
    && !q.Idle? && q.version <= VersionNow(s)
    && (Undisturbed(states, steps, j + 1, k) ==> s.top == At(q.pos, q.version))
    && (!Undisturbed(states, steps, j + 1, k) ==> Moved(s, q.version))
  }

  lemma LoadHolds(s: State, step: Step)
    requires Inv(s) && Enabled(s, step) && (step.Load? || step.Swap?) && !PopperOf(After(s, step), step.p).Idle?
    ensures var s' := After(s, step); var q := PopperOf(s', step.p);
            s'.top == At(q.pos, q.version) && q.version <= VersionNow(s')
  {
    hide Versioned, ReadRight, Conserved;
  }

  /** A popper that holds nothing cannot swap. */
  lemma IdleStays(s: State, step: Step, p: nat)
    requires Enabled(s, step) && PopperOf(s, p).Idle? && step != Load(p)
    ensures step != Swap(p) && PopperOf(After(s, step), p).Idle?
  {
  }

  lemma {:induction false} StillIdle(states: seq<State>, steps: seq<Step>, j: nat, k: nat, i: nat, p: nat)
    requires Run(states, steps) && Loads(states, steps, j, i, p) && j < k <= i && PopperOf(states[k], p).Idle?
    ensures false
    decreases i - k
  {
    hide Enabled, After, PopperOf;
    assert Enabled(states[k], steps[k]) && states[k + 1] == After(states[k], steps[k]);
    IdleStays(states[k], steps[k], p);
    if k < i { StillIdle(states, steps, j, k + 1, i, p); }
  }

  lemma {:induction false} HoldsOn(states: seq<State>, steps: seq<Step>, j: nat, k: nat, i: nat, p: nat)
    requires Run(states, steps) && Loads(states, steps, j, i, p) && j < k <= i
    ensures Holding(states, steps, j, k, p)
  {
    hide *;
    LoadsAt(states, steps, j, k, i, p);
    RunKeeps(states, steps, k - 1);
    RunStep(states, steps, k - 1);
    var s, q := states[k], PopperOf(states[k], p);
    if q.Idle? { StillIdle(states, steps, j, k, i, p); }
    HoldingIs(states, steps, j, k, p);
    if k == j + 1 {
      LoadHolds(states[j], steps[j]);
    } else {
      HoldsOn(states, steps, j, k - 1, i, p);
      HoldingIs(states, steps, j, k - 1, p);
      HoldsStep(states[k - 1], steps[k - 1], p);
      MovedStep(states[k - 1], steps[k - 1], PopperOf(states[k - 1], p).version);
      TopIsMoved(states[k - 1], PopperOf(states[k - 1], p));
    }
  }

  lemma RunStep(states: seq<State>, steps: seq<Step>, k: nat)
    requires Run(states, steps) && k < |steps|
    ensures |states| == |steps| + 1 && Enabled(states[k], steps[k]) && states[k + 1] == After(states[k], steps[k])
  {
    hide Enabled, After;
  }

  lemma LoadsAt(states: seq<State>, steps: seq<Step>, j: nat, k: nat, i: nat, p: nat)
    requires Loads(states, steps, j, i, p) && j < k <= i
    ensures i < |steps| && (steps[j] == Load(p) || steps[j] == Swap(p)) && steps[i] == Swap(p)
    ensures k == j + 1 || (steps[k - 1] != Load(p) && steps[k - 1] != Swap(p))
  {
  }

  lemma HoldingIs(states: seq<State>, steps: seq<Step>, j: nat, k: nat, p: nat)
    requires j < k <= |steps| < |states|
    ensures var q, s, u := PopperOf(states[k], p), states[k], Undisturbed(states, steps, j + 1, k);
            Holding(states, steps, j, k, p) <==>
              !q.Idle? && q.version <= VersionNow(s) && (u ==> s.top == At(q.pos, q.version)) && (!u ==> Moved(s, q.version))
    ensures k == j + 1 ==> Undisturbed(states, steps, j + 1, k)
    ensures k > j + 1 ==> (Undisturbed(states, steps, j + 1, k) <==>
              Undisturbed(states, steps, j + 1, k - 1) && !steps[k - 1].PreparePush? && !HandsOut(states[k - 1], states[k]))
  {
    hide PopperOf, VersionNow, Moved, HandsOut;
  }

  lemma TopIsMoved(s: State, q: Popper)
    requires Inv(s) && !q.Idle?
    ensures s.top == At(q.pos, q.version) ==> !Moved(s, q.version)
  {
    hide Versioned, ReadRight, Conserved;
  }

  /** A swap succeeds if and only if, since the popper loaded the top, nobody has popped and the producer
      has not taken the top away. */
  lemma SwapSucceeds(states: seq<State>, steps: seq<Step>, j: nat, i: nat, p: nat)
    requires Run(states, steps) && Loads(states, steps, j, i, p)
    ensures HandsOut(states[i], states[i + 1]) <==> Undisturbed(states, steps, j + 1, i)
  {
    HoldsOn(states, steps, j, i, i, p);
    RunKeeps(states, steps, i);
    assert Enabled(states[i], steps[i]) && states[i + 1] == After(states[i], steps[i]);
    hide Run, Versioned, ReadRight, Conserved, Undisturbed;
  }

  /** A pop that nobody disturbs hands out the last item of a stack that is not empty. */
  lemma LonePop(s: State, p: nat) returns (s': State)
    requires Inv(s) && s.producer.Resting? && PopperOf(s, p).Idle? && Contents(s) != []
    ensures Enabled(s, Load(p)) && Enabled(After(s, Load(p)), ReadSlot(p)) && Enabled(After(After(s, Load(p)), ReadSlot(p)), Swap(p))
    ensures s' == After(After(After(s, Load(p)), ReadSlot(p)), Swap(p))
    ensures s'.popped == s.popped + [Contents(s)[|Contents(s)| - 1]] && Contents(s') == Contents(s)[..|Contents(s)| - 1]
    ensures PopperOf(s', p).Idle?
  {
    hide Versioned, ReadRight, Conserved;
    s' := After(After(After(s, Load(p)), ReadSlot(p)), Swap(p));
  }

  /** The states while the producer writes these items. */
  ghost predicate WritesAll(s: State, items: seq<T>, s': State)
    decreases |items|
  {
    if items == [] then s' == s else Enabled(s, Write(items[0])) && WritesAll(After(s, Write(items[0])), items[1..], s')
  }

  lemma {:induction false} LoneWrites(s: State, items: seq<T>) returns (s': State)
    requires Placed(s) && s.producer.Writing? && s.producer.pos + |items| < |s.data|
    ensures WritesAll(s, items, s') && s'.producer == s.producer.(pos := s.producer.pos + |items|)
    ensures |s'.data| == |s.data| && s'.data[..s.producer.pos + 1] == s.data[..s.producer.pos + 1]
    ensures s'.data[s.producer.pos + 1..s.producer.pos + 1 + |items|] == items
    decreases |items|
  {
    if items == [] {
      s' := s;
    } else {
      var s1, n := After(s, Write(items[0])), s.producer.pos + 1;
      s' := LoneWrites(s1, items[1..]);
      assert s1.data[..n] == s.data[..n] && s'.data[..n + 1][..n] == s1.data[..n + 1][..n];
      assert s'.data[n] == s'.data[..n + 1][n] == items[0];
      assert s'.data[n..n + |items|] == [s'.data[n]] + s'.data[n + 1..n + |items|];
      hide *;
    }
  }

  /** A push for which there is room goes through, and its items lie on top. */
  lemma LonePush(s: State, items: seq<T>) returns (s1: State, s2: State, s': State)
    requires Inv(s) && s.producer.Resting? && |Contents(s)| + |items| <= |s.data|
    ensures Enabled(s, PreparePush) && s1 == After(s, PreparePush) && WritesAll(s1, items, s2)
    ensures Enabled(s2, CommitPush) && s' == After(s2, CommitPush) && Contents(s') == Contents(s) + items && s'.producer.Resting?
  {
    hide Versioned, ReadRight, Conserved, WritesAll;
    s1 := After(s, PreparePush);
    s2 := LoneWrites(s1, items);
    s' := After(s2, CommitPush);
    var n := s.top.pos + 1;
    assert s2.data[..n + |items|] == s2.data[..n] + s2.data[n..n + |items|];
  }
}
