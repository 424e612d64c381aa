/** Copying a laid-out trie into the front slots of another node: the depth-first walk with an explicit
stack that numbers branches in preorder and keys in order. */
module TrieFill {
  import opened Keys
  import opened Trie
  import opened TrieLayout
  import opened TrieRelink

  /** The shape with branches from slot `b` and keys from slot `k` on. */
  function Relabel(s: Shape, b: nat, k: nat): (u: Shape)
  {
    match s
    case KeyAt(_) => KeyAt(k)
    case Branch(_, l, r) => Branch(b, Relabel(l, b + 1, k), Relabel(r, b + Leaves(l), k + Leaves(l)))
  }

  lemma {:induction false} RelabelBranches(s: Shape, b: nat, k: nat)
    ensures forall i: nat :: i in Branches(Relabel(s, b, k)) <==> b <= i < b + Leaves(s) - 1
  {
    if s.Branch? {
      RelabelBranches(s.small, b + 1, k);
      RelabelBranches(s.large, b + Leaves(s.small), k + Leaves(s.small));
    }
  }

  lemma {:induction false} RelabelKeys(s: Shape, b: nat, k: nat)
    ensures forall i: nat :: i in KeySlots(Relabel(s, b, k)) <==> k <= i < k + Leaves(s)
  {
    if s.Branch? {
      RelabelKeys(s.small, b + 1, k);
      RelabelKeys(s.large, b + Leaves(s.small), k + Leaves(s.small));
    }
  }

  /** The new slots are used without a gap, each once. */
  lemma {:induction false} RelabelSlots(s: Shape, b: nat, k: nat)
    ensures var u := Relabel(s, b, k);
            && Leaves(u) == Leaves(s) && Distinct(u)
            && (forall i: nat :: i in Branches(u) <==> b <= i < b + Leaves(s) - 1)
            && (forall i: nat :: i in KeySlots(u) <==> k <= i < k + Leaves(s))
  {
    RelabelBranches(s, b, k);
    RelabelKeys(s, b, k);
    if s.Branch? {
      var l, r := Relabel(s.small, b + 1, k), Relabel(s.large, b + Leaves(s.small), k + Leaves(s.small));
      RelabelSlots(s.small, b + 1, k);
      RelabelSlots(s.large, b + Leaves(s.small), k + Leaves(s.small));
      hide Branches, KeySlots;
    }
  }

  /** The state of the walk: the tables read and written, how often each branch was met, the new slot of
      each branch, and the numbers of branches and keys placed. */
  datatype Fill = Fill(tab: Table, out: Table, nu: seq<nat>, pos: seq<nat>, bc: nat, kc: nat)

  ghost predicate Done(s: Shape, b: nat, k: nat, f: Fill)
    requires Laid(s, f.tab)
  {
    Laid(Relabel(s, b, k), f.out) && TrieOf(Relabel(s, b, k), f.out) == TrieOf(s, f.tab)
  }

  ghost predicate Fresh(s: Shape, nu: seq<nat>)
  {
    forall x :: x in Branches(s) ==> x < |nu| && nu[x] == 0
  }

  /** What is known of a branch by the number of times it was met. */
  ghost predicate Met(s: Shape, b: nat, k: nat, f: Fill)
    requires Laid(s, f.tab)
  {
    && s.Branch? && s.slot < |f.nu| && s.slot < |f.pos| && f.pos[s.slot] == b && f.nu[s.slot] <= 2
    && Slots(f.out, b) && f.out.bits[b] == f.tab.bits[s.slot] && f.out.area == f.tab.area
    && (f.nu[s.slot] == 0 ==> Fresh(s.small, f.nu)) && (f.nu[s.slot] < 2 ==> Fresh(s.large, f.nu))
    && (f.nu[s.slot] >= 1 ==> f.out.small[b] == Ptr(Relabel(s.small, b + 1, k), f.tab.area))
    && (f.nu[s.slot] == 2 ==>
          Done(s.small, b + 1, k, f) && f.out.large[b] == Ptr(Relabel(s.large, b + Leaves(s.small), k + Leaves(s.small)), f.tab.area))
  }

  /** The branch on top of the stack: nothing below it is open. */
  ghost predicate AtTop(s: Shape, b: nat, k: nat, f: Fill)
    requires Laid(s, f.tab) && Met(s, b, k, f)
  {
    if f.nu[s.slot] == 0 then f.bc == b + 1 && f.kc == k
    else if f.nu[s.slot] == 1 then Done(s.small, b + 1, k, f) && f.bc == b + Leaves(s.small) && f.kc == k + Leaves(s.small)
    else Done(s.large, b + Leaves(s.small), k + Leaves(s.small), f) && f.bc == b + Leaves(s) - 1 && f.kc == k + Leaves(s)
  }

  /** The part of the shape below the branch `s` is as far as the stack says. */
  ghost predicate InProgress(s: Shape, b: nat, k: nat, st: seq<nat>, f: Fill)
    requires Laid(s, f.tab)
  {
    && |st| > 0 && Met(s, b, k, f) && st[0] == s.slot
    && if |st| == 1 then AtTop(s, b, k, f)
       else if f.nu[s.slot] == 1 then InProgress(s.small, b + 1, k, st[1..], f)
       else f.nu[s.slot] == 2 && InProgress(s.large, b + Leaves(s.small), k + Leaves(s.small), st[1..], f)
  }

  /** The child that a branch below the top of the stack is open on, and where its part of the new slots
      starts. */
  ghost function Below(s: Shape, nu: seq<nat>): (c: Shape)
    requires s.Branch? && s.slot < |nu|
    ensures c < s
  {
    if nu[s.slot] == 1 then s.small else s.large
  }

  ghost function BelowB(s: Shape, b: nat, nu: seq<nat>): (r: nat)
    requires s.Branch? && s.slot < |nu|
  {
    if nu[s.slot] == 1 then b + 1 else b + Leaves(s.small)
  }

  ghost function BelowK(s: Shape, k: nat, nu: seq<nat>): (r: nat)
    requires s.Branch? && s.slot < |nu|
  {
    if nu[s.slot] == 1 then k else k + Leaves(s.small)
  }

  /** The branch on top of the stack, and where its part of the new slots starts. */
  ghost function Top(s: Shape, b: nat, k: nat, st: seq<nat>, nu: seq<nat>): (t: (Shape, nat, nat))
  {
    if |st| <= 1 || s.KeyAt? || s.slot >= |nu| then (s, b, k)
    else Top(Below(s, nu), BelowB(s, b, nu), BelowK(s, k, nu), st[1..], nu)
  }

  /** One unfolding of the invariant, in one direction and the other. */
  lemma Unfold(s: Shape, b: nat, k: nat, st: seq<nat>, f: Fill)
    requires Laid(s, f.tab) && InProgress(s, b, k, st, f)
    ensures |st| > 0 && st[0] == s.slot && s.Branch? && s.slot < |f.nu| && Met(s, b, k, f)
    ensures |st| == 1 ==> AtTop(s, b, k, f) && Top(s, b, k, st, f.nu) == (s, b, k)
    ensures |st| > 1 ==> (f.nu[s.slot] == 1 || f.nu[s.slot] == 2) && Laid(Below(s, f.nu), f.tab)
    ensures |st| > 1 ==> InProgress(Below(s, f.nu), BelowB(s, b, f.nu), BelowK(s, k, f.nu), st[1..], f)
    ensures |st| > 1 ==> Top(s, b, k, st, f.nu) == Top(Below(s, f.nu), BelowB(s, b, f.nu), BelowK(s, k, f.nu), st[1..], f.nu)
  {
    hide AtTop, Done, Relabel, Leaves;
  }

  lemma Fold(s: Shape, b: nat, k: nat, st: seq<nat>, f: Fill)
    requires Laid(s, f.tab) && |st| > 1 && st[0] == s.slot && Met(s, b, k, f) && (f.nu[s.slot] == 1 || f.nu[s.slot] == 2)
    requires Laid(Below(s, f.nu), f.tab) && InProgress(Below(s, f.nu), BelowB(s, b, f.nu), BelowK(s, k, f.nu), st[1..], f)
    ensures InProgress(s, b, k, st, f)
  {
    hide AtTop, Done, Relabel, Leaves;
  }

  lemma BelowParts(s: Shape, b: nat, k: nat, nu: seq<nat>)
    requires s.Branch? && Distinct(s) && s.slot < |nu|
    ensures var c := Below(s, nu);
            && Distinct(c) && Branches(c) <= Branches(s) && s.slot !in Branches(c)
            && b <= BelowB(s, b, nu) && BelowB(s, b, nu) + Leaves(c) <= b + Leaves(s)
            && k <= BelowK(s, k, nu) && BelowK(s, k, nu) + Leaves(c) <= k + Leaves(s)
  {
    Parts(s);
  }

  lemma {:induction false} TopIs(s: Shape, b: nat, k: nat, st: seq<nat>, f: Fill)
    requires Laid(s, f.tab) && InProgress(s, b, k, st, f) && Distinct(s)
    ensures var (c, tb, tk) := Top(s, b, k, st, f.nu);
            && |st| > 0 && Laid(c, f.tab) && Distinct(c) && Met(c, tb, tk, f) && AtTop(c, tb, tk, f) && c.Branch? && c.slot == st[|st| - 1]
            && Branches(c) <= Branches(s) && b <= tb && k <= tk && c.slot < |f.nu|
            && tb + Leaves(c) <= b + Leaves(s) && tk + Leaves(c) <= k + Leaves(s)
            && (|st| > 1 ==> c.slot in Branches(Below(s, f.nu))) && (|st| == 1 ==> c == s)
  {
    hide *;
    Unfold(s, b, k, st, f);
    if |st| > 1 {
      var c := Below(s, f.nu);
      BelowParts(s, b, k, f.nu);
      TopIs(c, BelowB(s, b, f.nu), BelowK(s, k, f.nu), st[1..], f);
      var t := Top(s, b, k, st, f.nu).0;
      Parts(t);
    }
  }

  // ------------------------------------------------------------------------------------
  // Steps
  // ------------------------------------------------------------------------------------

  /** The new table is the same in front of the branch slot `b` and the key slot `k`. */
  ghost predicate SameBefore(out: Table, out': Table, b: nat, k: nat)
  {
    && out'.area == out.area && |out'.bits| == |out.bits| && |out'.small| == |out.small| && |out'.large| == |out.large| && |out'.keys| == |out.keys|
    && (forall i: nat :: i < b && Slots(out, i) ==> SameSlot(out, out', i))
    && (forall i: nat :: i < k && i < |out.keys| ==> out'.keys[i] == out.keys[i])
  }

  lemma DoneKept(s: Shape, b: nat, k: nat, f: Fill, f': Fill, b': nat, k': nat)
    requires Laid(s, f.tab) && f'.tab == f.tab && Done(s, b, k, f) && SameBefore(f.out, f'.out, b', k')
    requires b + Leaves(s) - 1 <= b' && k + Leaves(s) <= k'
    ensures Done(s, b, k, f')
  {
    RelabelSlots(s, b, k);
    hide Laid, TrieOf, Relabel, Branches, KeySlots, Distinct, Leaves;
    SameIf(Relabel(s, b, k), f.out, f'.out);
    Frame(Relabel(s, b, k), f.out, f'.out);
  }

  /** The marks of branches outside the part on top of the stack stay. */
  ghost predicate SameMarks(f: Fill, f': Fill, c: Shape)
  {
    && |f'.nu| == |f.nu| && |f'.pos| == |f.pos|
    && (forall x :: 0 <= x < |f.nu| && x !in Branches(c) ==> f'.nu[x] == f.nu[x])
    && (forall x :: 0 <= x < |f.pos| && x !in Branches(c) ==> f'.pos[x] == f.pos[x])
  }

  /** A branch below the top is still as it was met. */
  lemma MetKept(s: Shape, b: nat, k: nat, f: Fill, f': Fill, c: Shape, tb: nat, tk: nat)
    requires Laid(s, f.tab) && f'.tab == f.tab && Met(s, b, k, f) && Distinct(s) && SameBefore(f.out, f'.out, tb, tk) && SameMarks(f, f', c)
    requires f.nu[s.slot] == 1 || f.nu[s.slot] == 2
    requires Branches(c) <= Branches(Below(s, f.nu)) && BelowB(s, b, f.nu) <= tb && BelowK(s, k, f.nu) <= tk
    ensures Met(s, b, k, f') && s.slot < |f'.nu| && f'.nu[s.slot] == f.nu[s.slot]
  {
    BelowParts(s, b, k, f.nu);
    assert s.slot !in Branches(c);
    if f.nu[s.slot] == 2 {
      DoneKept(s.small, b + 1, k, f, f', tb, tk);
    }
    FreshKept(s, f, f', c);
    hide Laid, Relabel, Branches, Done, Fresh;
    hide Distinct, Leaves;
  }

  lemma FreshKept(s: Shape, f: Fill, f': Fill, c: Shape)
    requires s.Branch? && Distinct(s) && s.slot < |f.nu| && SameMarks(f, f', c) && Branches(c) <= Branches(Below(s, f.nu))
    ensures f.nu[s.slot] == 1 && Fresh(s.large, f.nu) ==> Fresh(s.large, f'.nu)
  {
    hide Leaves;
  }

  lemma FrontStack(st: seq<nat>, st': seq<nat>)
    requires |st| > 1 && |st'| > 0
    ensures |st[..|st| - 1] + st'| > 1 && (st[..|st| - 1] + st')[0] == st[0]
    ensures (st[..|st| - 1] + st')[1..] == st[1..][..|st[1..]| - 1] + st'
  {
  }

  lemma OneFront(st: seq<nat>, st': seq<nat>)
    requires |st| == 1
    ensures st[..|st| - 1] + st' == st'
  {
  }

  /** What happens on top of the stack does not disturb what is below. */
  lemma {:induction false} OnTop(s: Shape, b: nat, k: nat, st: seq<nat>, st': seq<nat>, f: Fill, f': Fill)
    requires Laid(s, f.tab) && InProgress(s, b, k, st, f) && Distinct(s) && f'.tab == f.tab && |st'| > 0 && |st| > 0
    requires var (c, tb, tk) := Top(s, b, k, st, f.nu);
             Laid(c, f.tab) && InProgress(c, tb, tk, st', f') && SameBefore(f.out, f'.out, tb, tk) && SameMarks(f, f', c)
    ensures InProgress(s, b, k, st[..|st| - 1] + st', f')
  {
    hide *;
    Unfold(s, b, k, st, f);
    if |st| == 1 {
      OneFront(st, st');
    } else {
      var (t, tb, tk) := Top(s, b, k, st, f.nu);
      var c, cb, ck := Below(s, f.nu), BelowB(s, b, f.nu), BelowK(s, k, f.nu);
      FrontStack(st, st');
      BelowParts(s, b, k, f.nu);
      TopIs(c, cb, ck, st[1..], f);
      MetKept(s, b, k, f, f', t, tb, tk);
      SameBelow(s, b, k, f, f');
      OnTop(c, cb, ck, st[1..], st', f, f');
      Fold(s, b, k, st[..|st| - 1] + st', f');
    }
  }

  lemma SameBelow(s: Shape, b: nat, k: nat, f: Fill, f': Fill)
    requires s.Branch? && s.slot < |f.nu| && s.slot < |f'.nu| && f'.nu[s.slot] == f.nu[s.slot]
    ensures Below(s, f'.nu) == Below(s, f.nu) && BelowB(s, b, f'.nu) == BelowB(s, b, f.nu) && BelowK(s, k, f'.nu) == BelowK(s, k, f.nu)
  {
  }

  /** A branch met twice whose large side is in place is in place. */
  lemma MetDone(s: Shape, b: nat, k: nat, f: Fill)
    requires Laid(s, f.tab) && Met(s, b, k, f) && f.nu[s.slot] == 2 && Laid(s.large, f.tab)
    requires Done(s.large, b + Leaves(s.small), k + Leaves(s.small), f)
    ensures Done(s, b, k, f)
  {
    hide *;
    MetParts(s, b, k, f);
    var l, r := Relabel(s.small, b + 1, k), Relabel(s.large, b + Leaves(s.small), k + Leaves(s.small));
    DoneIs(s.small, b + 1, k, f);
    DoneIs(s.large, b + Leaves(s.small), k + Leaves(s.small), f);
    BranchDone(s, b, l, r, f);
    RelabelUnfolds(s, b, k);
    DoneIs(s, b, k, f);
  }

  lemma MetParts(s: Shape, b: nat, k: nat, f: Fill)
    requires Laid(s, f.tab) && Met(s, b, k, f) && f.nu[s.slot] == 2
    ensures s.Branch? && Laid(s.small, f.tab) && Laid(s.large, f.tab) && Done(s.small, b + 1, k, f)
    ensures Slots(f.out, b) && s.slot < |f.tab.bits| && f.out.bits[b] == f.tab.bits[s.slot] && f.out.area == f.tab.area
    ensures f.out.small[b] == Ptr(Relabel(s.small, b + 1, k), f.out.area)
    ensures f.out.large[b] == Ptr(Relabel(s.large, b + Leaves(s.small), k + Leaves(s.small)), f.out.area)
  {
    hide Done, Relabel, Leaves, Fresh;
  }

  lemma DoneIs(s: Shape, b: nat, k: nat, f: Fill)
    requires Laid(s, f.tab)
    ensures Done(s, b, k, f) <==> Laid(Relabel(s, b, k), f.out) && TrieOf(Relabel(s, b, k), f.out) == TrieOf(s, f.tab)
  {
    hide Laid, TrieOf, Relabel;
  }

  lemma RelabelUnfolds(s: Shape, b: nat, k: nat)
    requires s.Branch?
    ensures Relabel(s, b, k) == Branch(b, Relabel(s.small, b + 1, k), Relabel(s.large, b + Leaves(s.small), k + Leaves(s.small)))
  {
  }

  /** A finished branch: all of its part is in place. */
  lemma TopDone(c: Shape, b: nat, k: nat, f: Fill)
    requires Laid(c, f.tab) && Met(c, b, k, f) && AtTop(c, b, k, f) && f.nu[c.slot] == 2
    ensures Done(c, b, k, f) && f.bc == b + Leaves(c) - 1 && f.kc == k + Leaves(c)
  {
    hide Laid, TrieOf, Relabel, Done, Met;
    MetParts(c, b, k, f);
    MetDone(c, b, k, f);
  }

  lemma BranchDone(c: Shape, b: nat, l: Shape, r: Shape, f: Fill)
    requires Laid(c, f.tab) && c.Branch? && Slots(f.out, b) && f.out.bits[b] == f.tab.bits[c.slot]
    requires Laid(l, f.out) && Laid(r, f.out) && f.out.small[b] == Ptr(l, f.out.area) && f.out.large[b] == Ptr(r, f.out.area)
    requires TrieOf(l, f.out) == TrieOf(c.small, f.tab) && TrieOf(r, f.out) == TrieOf(c.large, f.tab)
    ensures Laid(Branch(b, l, r), f.out) && TrieOf(Branch(b, l, r), f.out) == TrieOf(c, f.tab)
  {
  }

  /** A branch whose open child is finished is itself on top as it was met. */
  lemma ChildFinished(s: Shape, b: nat, k: nat, st: seq<nat>, f: Fill)
    requires Laid(s, f.tab) && Met(s, b, k, f) && |st| > 0 && st[0] == s.slot && (f.nu[s.slot] == 1 || f.nu[s.slot] == 2)
    requires var c := Below(s, f.nu);
             && Laid(c, f.tab) && Done(c, BelowB(s, b, f.nu), BelowK(s, k, f.nu), f)
             && f.bc == BelowB(s, b, f.nu) + Leaves(c) - 1 && f.kc == BelowK(s, k, f.nu) + Leaves(c)
    ensures InProgress(s, b, k, st[..1], f)
  {
    hide Done, Relabel, Branches;
    assert f.nu[s.slot] == 2 ==> Leaves(s) == Leaves(s.small) + Leaves(s.large);
  }

  lemma ShortStack(st: seq<nat>)
    requires |st| > 1
    ensures |st| > 2 ==> |st[..|st| - 1]| > 1 && st[..|st| - 1][0] == st[0] && st[..|st| - 1][1..] == st[1..][..|st[1..]| - 1]
    ensures |st| == 2 ==> st[..|st| - 1] == st[..1]
  {
  }

  /** Taking a finished branch off the stack. */
  lemma {:induction false} Popped(s: Shape, b: nat, k: nat, st: seq<nat>, f: Fill)
    requires Laid(s, f.tab) && InProgress(s, b, k, st, f) && Distinct(s) && |st| > 1
    requires var c := Top(s, b, k, st, f.nu).0; c.Branch? && c.slot < |f.nu| && f.nu[c.slot] == 2
    ensures InProgress(s, b, k, st[..|st| - 1], f)
  {
    hide *;
    Unfold(s, b, k, st, f);
    var c, cb, ck := Below(s, f.nu), BelowB(s, b, f.nu), BelowK(s, k, f.nu);
    ShortStack(st);
    if |st| == 2 {
      Unfold(c, cb, ck, st[1..], f);
      TopDone(c, cb, ck, f);
      ChildFinished(s, b, k, st, f);
    } else {
      BelowParts(s, b, k, f.nu);
      Popped(c, cb, ck, st[1..], f);
      Fold(s, b, k, st[..|st| - 1], f);
    }
  }

  /** The counters stay inside the part of the shape. */
  lemma {:induction false} Counted(s: Shape, b: nat, k: nat, st: seq<nat>, f: Fill)
    requires Laid(s, f.tab) && InProgress(s, b, k, st, f) && Distinct(s)
    ensures b < f.bc <= b + Leaves(s) - 1 && k <= f.kc <= k + Leaves(s)
  {
    hide *;
    Unfold(s, b, k, st, f);
    if |st| > 1 {
      BelowParts(s, b, k, f.nu);
      Counted(Below(s, f.nu), BelowB(s, b, f.nu), BelowK(s, k, f.nu), st[1..], f);
    } else {
      TopCounts(s, b, k, f);
    }
  }

  lemma TopCounts(s: Shape, b: nat, k: nat, f: Fill)
    requires Laid(s, f.tab) && Met(s, b, k, f) && AtTop(s, b, k, f)
    ensures b < f.bc <= b + Leaves(s) - 1 && k <= f.kc <= k + Leaves(s)
    ensures f.nu[s.slot] < 2 ==> f.kc < k + Leaves(s)
    ensures f.nu[s.slot] == 2 ==> f.kc == k + Leaves(s)
  {
    hide Done, Relabel;
  }

  lemma BelowCounts(s: Shape, k: nat, nu: seq<nat>)
    requires s.Branch? && s.slot < |nu|
    ensures nu[s.slot] == 1 ==> BelowK(s, k, nu) + Leaves(Below(s, nu)) < k + Leaves(s)
    ensures nu[s.slot] == 2 ==> BelowK(s, k, nu) + Leaves(Below(s, nu)) == k + Leaves(s)
  {
  }

  /** When all keys are placed, all of the shape is. */
  lemma {:induction false} Completed(s: Shape, b: nat, k: nat, st: seq<nat>, f: Fill)
    requires Laid(s, f.tab) && InProgress(s, b, k, st, f) && Distinct(s) && f.kc == k + Leaves(s)
    ensures Done(s, b, k, f)
  {
    hide *;
    Unfold(s, b, k, st, f);
    if |st| > 1 {
      var c, cb, ck := Below(s, f.nu), BelowB(s, b, f.nu), BelowK(s, k, f.nu);
      BelowParts(s, b, k, f.nu);
      BelowCounts(s, k, f.nu);
      Counted(c, cb, ck, st[1..], f);
      Completed(c, cb, ck, st[1..], f);
      LargeBelow(s, b, k, f.nu);
      MetDone(s, b, k, f);
    } else {
      TopCounts(s, b, k, f);
      MetBound(s, b, k, f);
      TopDone(s, b, k, f);
    }
  }

  lemma LargeBelow(s: Shape, b: nat, k: nat, nu: seq<nat>)
    requires s.Branch? && s.slot < |nu| && nu[s.slot] == 2
    ensures Below(s, nu) == s.large && BelowB(s, b, nu) == b + Leaves(s.small) && BelowK(s, k, nu) == k + Leaves(s.small)
  {
  }

  lemma MetBound(s: Shape, b: nat, k: nat, f: Fill)
    requires Laid(s, f.tab) && Met(s, b, k, f)
    ensures f.nu[s.slot] <= 2
  {
  }

  // ------------------------------------------------------------------------------------
  // The two ways a branch is met
  // ------------------------------------------------------------------------------------

  /** The child a branch is opened on when it is met for the first and the second time. */
  function Next(c: Shape, met: nat): (x: Shape)
    requires c.Branch?
  {
    if met == 0 then c.small else c.large
  }

  function SetPtr(out: Table, b: nat, large: bool, p: nat): (r: Table)
    requires b < |out.small| && b < |out.large|
  {
    if large then out.(large := out.large[b := p]) else out.(small := out.small[b := p])
  }

  /** The next label is where the counters are. */
  lemma NextLabel(c: Shape, b: nat, k: nat, f: Fill)
    requires Laid(c, f.tab) && Met(c, b, k, f) && AtTop(c, b, k, f) && f.nu[c.slot] < 2
    ensures c.Branch? && Laid(Next(c, f.nu[c.slot]), f.tab) && Slots(f.out, b) && Slots(f.tab, c.slot) && f.out.area == f.tab.area
    ensures c.slot < |f.nu| && c.slot < |f.pos| && f.pos[c.slot] == b && b < f.bc && k <= f.kc
    ensures f.bc + Leaves(Next(c, f.nu[c.slot])) <= b + Leaves(c) && f.kc + Leaves(Next(c, f.nu[c.slot])) <= k + Leaves(c)
    ensures f.nu[c.slot] == 1 ==> Laid(c.small, f.tab) && Done(c.small, b + 1, k, f) && f.bc == b + Leaves(c.small) && f.kc == k + Leaves(c.small)
    ensures f.nu[c.slot] == 0 ==> f.bc == b + 1 && f.kc == k
    ensures Fresh(Next(c, f.nu[c.slot]), f.nu) && Fresh(c.large, f.nu)
    ensures Ptr(Next(c, f.nu[c.slot]), f.tab.area) == if f.nu[c.slot] == 0 then f.tab.small[c.slot] else f.tab.large[c.slot]
    ensures f.out.bits[b] == f.tab.bits[c.slot] && (f.nu[c.slot] == 1 ==> f.out.small[b] == Ptr(Relabel(c.small, b + 1, k), f.tab.area))
  {
    hide Done, Relabel, Fresh;
  }

  /** A finished part stays so if only slots outside of it are written. */
  lemma DoneBut(s: Shape, b: nat, k: nat, f: Fill, f': Fill, x: nat, y: nat, z: nat)
    requires Laid(s, f.tab) && f'.tab == f.tab && Done(s, b, k, f) && f.out.area == f'.out.area
    requires forall i: nat :: i != x && i != y && Slots(f.out, i) ==> SameSlot(f.out, f'.out, i)
    requires |f'.out.keys| == |f.out.keys| && forall i: nat :: i != z && i < |f.out.keys| ==> f'.out.keys[i] == f.out.keys[i]
    requires x < b && b + Leaves(s) - 1 <= y && k + Leaves(s) <= z
    ensures Done(s, b, k, f')
  {
    RelabelSlots(s, b, k);
    hide Laid, TrieOf, Relabel, Branches, KeySlots, Distinct, Leaves;
    SameIf(Relabel(s, b, k), f.out, f'.out);
    Frame(Relabel(s, b, k), f.out, f'.out);
  }

  /** The state after a key was placed. */
  function KeyPlaced(c: Shape, b: nat, f: Fill): (r: Fill)
    requires c.Branch? && c.slot < |f.nu| && b < |f.out.small| && b < |f.out.large| && Next(c, f.nu[c.slot]).KeyAt?
    requires f.kc < |f.out.keys| && Next(c, f.nu[c.slot]).slot < |f.tab.keys|
  {
    var m := f.nu[c.slot];
    var out := f.out.(keys := f.out.keys[f.kc := f.tab.keys[Next(c, m).slot]]);
    Fill(f.tab, SetPtr(out, b, m == 1, f.tab.area + f.kc), f.nu[c.slot := m + 1], f.pos, f.bc, f.kc + 1)
  }

  /** The state after a branch was opened. */
  function BranchOpened(c: Shape, b: nat, f: Fill): (r: Fill)
    requires c.Branch? && c.slot < |f.nu| && b < |f.out.small| && b < |f.out.large| && Next(c, f.nu[c.slot]).Branch?
    requires f.bc < |f.out.bits| && Next(c, f.nu[c.slot]).slot < |f.tab.bits| && Next(c, f.nu[c.slot]).slot < |f.pos|
  {
    var m := f.nu[c.slot];
    var x := Next(c, m).slot;
    var out := f.out.(bits := f.out.bits[f.bc := f.tab.bits[x]]);
    Fill(f.tab, SetPtr(out, b, m == 1, f.bc), f.nu[c.slot := m + 1], f.pos[x := f.bc], f.bc + 1, f.kc)
  }

  lemma KeyStepFrame(c: Shape, b: nat, k: nat, f: Fill)
    requires Laid(c, f.tab) && Distinct(c) && Met(c, b, k, f) && AtTop(c, b, k, f) && f.nu[c.slot] < 2 && Next(c, f.nu[c.slot]).KeyAt?
    requires f.kc < |f.out.keys| && Next(c, f.nu[c.slot]).slot < |f.tab.keys|
    ensures var f' := KeyPlaced(c, b, f);
            && SameBefore(f.out, f'.out, b, k) && SameMarks(f, f', c) && f'.tab == f.tab && Fresh(c.large, f'.nu)
            && (f.nu[c.slot] == 1 ==> Done(c.small, b + 1, k, f'))
  {
    NextLabel(c, b, k, f);
    FreshMarked(c, f.nu, f.nu[c.slot] + 1);
    var f' := KeyPlaced(c, b, f);
    Parts(c);
    hide Laid, Distinct, Branches, Done, Relabel, Fresh, Met, AtTop, Leaves;
    if f.nu[c.slot] == 1 {
      DoneBut(c.small, b + 1, k, f, f', b, f.bc, f.kc);
    }
  }

  lemma FreshMarked(c: Shape, nu: seq<nat>, m: nat)
    requires c.Branch? && Distinct(c) && c.slot < |nu| && Fresh(c.large, nu)
    ensures Fresh(c.large, nu[c.slot := m])
  {
  }

  /** Placing a key. */
  lemma KeyStep(c: Shape, b: nat, k: nat, f: Fill)
    requires Laid(c, f.tab) && Distinct(c) && Met(c, b, k, f) && AtTop(c, b, k, f) && f.nu[c.slot] < 2 && Next(c, f.nu[c.slot]).KeyAt?
    requires f.kc < |f.out.keys| && Next(c, f.nu[c.slot]).slot < |f.tab.keys|
    ensures InProgress(c, b, k, [c.slot], KeyPlaced(c, b, f))
  {
    NextLabel(c, b, k, f);
    KeyStepFrame(c, b, k, f);
    var f', x := KeyPlaced(c, b, f), Next(c, f.nu[c.slot]);
    KeyDone(x, f.bc, f.kc, f');
    hide Laid, Distinct, Branches, Done, Fresh;
    assert Leaves(x) == 1 && Ptr(Relabel(x, f.bc, f.kc), f.tab.area) == f.tab.area + f.kc;
  }

  lemma KeyDone(x: Shape, b: nat, k: nat, f: Fill)
    requires x.KeyAt? && Laid(x, f.tab) && k < |f.out.keys| && f.out.keys[k] == f.tab.keys[x.slot]
    ensures Done(x, b, k, f)
  {
  }

  lemma OpenedFrame(c: Shape, b: nat, k: nat, f: Fill)
    requires c.Branch? && c.slot < |f.nu| && b < |f.out.small| && b < |f.out.large| && Next(c, f.nu[c.slot]).Branch?
    requires f.bc < |f.out.bits| && Next(c, f.nu[c.slot]).slot < |f.tab.bits| && Next(c, f.nu[c.slot]).slot < |f.pos| && b < f.bc
    ensures var f' := BranchOpened(c, b, f);
            && SameBefore(f.out, f'.out, b, k) && SameMarks(f, f', c) && f'.tab == f.tab && f'.out.keys == f.out.keys
            && (forall i: nat :: i != b && i != f.bc && Slots(f.out, i) ==> SameSlot(f.out, f'.out, i))
  {
    Parts(c);
    Parts(Next(c, f.nu[c.slot]));
    hide Branches;
  }

  lemma BranchStepFrame(c: Shape, b: nat, k: nat, f: Fill)
    requires Laid(c, f.tab) && Distinct(c) && Met(c, b, k, f) && AtTop(c, b, k, f) && f.nu[c.slot] < 2 && Next(c, f.nu[c.slot]).Branch?
    requires Slots(f.out, f.bc) && Next(c, f.nu[c.slot]).slot < |f.tab.bits| && Next(c, f.nu[c.slot]).slot < |f.pos|
    ensures var f' := BranchOpened(c, b, f);
            && SameBefore(f.out, f'.out, b, k) && SameMarks(f, f', c) && f'.tab == f.tab && Fresh(c.large, f'.nu)
            && Fresh(Next(c, f.nu[c.slot]), f'.nu) && (f.nu[c.slot] == 1 ==> Done(c.small, b + 1, k, f'))
  {
    hide *;
    BelowSlots(c, b, f);
    NextLabel(c, b, k, f);
    FreshMarked(c, f.nu, f.nu[c.slot] + 1);
    NextFresh(c, f.nu, f.nu[c.slot] + 1);
    OpenedFrame(c, b, k, f);
    OpenedIs(c, b, f);
    var f' := BranchOpened(c, b, f);
    if f.nu[c.slot] == 1 {
      DoneBut(c.small, b + 1, k, f, f', b, f.bc, f.kc);
    }
  }

  lemma BelowSlots(c: Shape, b: nat, f: Fill)
    ensures Slots(f.out, b) ==> b < |f.out.small| && b < |f.out.large|
    ensures Slots(f.out, f.bc) ==> f.bc < |f.out.bits|
  {
  }

  lemma OpenedIs(c: Shape, b: nat, f: Fill)
    requires c.Branch? && c.slot < |f.nu| && b < |f.out.small| && b < |f.out.large| && Next(c, f.nu[c.slot]).Branch?
    requires f.bc < |f.out.bits| && Next(c, f.nu[c.slot]).slot < |f.tab.bits| && Next(c, f.nu[c.slot]).slot < |f.pos|
    ensures var f' := BranchOpened(c, b, f);
            f'.nu == f.nu[c.slot := f.nu[c.slot] + 1] && f'.out.area == f.out.area
  {
  }

  lemma NextFresh(c: Shape, nu: seq<nat>, m: nat)
    requires c.Branch? && Distinct(c) && c.slot < |nu| && Fresh(Next(c, nu[c.slot]), nu)
    ensures Fresh(Next(c, nu[c.slot]), nu[c.slot := m])
  {
  }

  /** Opening a branch. */
  lemma BranchStep(c: Shape, b: nat, k: nat, f: Fill)
    requires Laid(c, f.tab) && Distinct(c) && Met(c, b, k, f) && AtTop(c, b, k, f) && f.nu[c.slot] < 2 && Next(c, f.nu[c.slot]).Branch?
    requires Slots(f.out, f.bc) && Next(c, f.nu[c.slot]).slot < |f.tab.bits| && Next(c, f.nu[c.slot]).slot < |f.pos|
    ensures InProgress(c, b, k, [c.slot, Next(c, f.nu[c.slot]).slot], BranchOpened(c, b, f))
  {
    NextLabel(c, b, k, f);
    BranchStepFrame(c, b, k, f);
    var f', x := BranchOpened(c, b, f), Next(c, f.nu[c.slot]);
    FreshParts(x, f'.nu);
    NewSlot(c, x);
    OpenedMet(c, b, k, f);
    hide Laid, Distinct, Branches, Done, Fresh, Leaves, Relabel, Met;
    var st := [c.slot, x.slot];
    assert st[1..] == [x.slot];
  }

  lemma FreshParts(x: Shape, nu: seq<nat>)
    requires x.Branch? && Fresh(x, nu)
    ensures x.slot < |nu| && nu[x.slot] == 0 && Fresh(x.small, nu) && Fresh(x.large, nu)
  {
    Parts(x);
  }

  lemma NewSlot(c: Shape, x: Shape)
    requires c.Branch? && Distinct(c) && x.Branch? && (x == c.small || x == c.large)
    ensures x.slot != c.slot
  {
    Parts(x);
  }

  lemma OpenedMet(c: Shape, b: nat, k: nat, f: Fill)
    requires Laid(c, f.tab) && Met(c, b, k, f) && AtTop(c, b, k, f) && f.nu[c.slot] < 2 && Next(c, f.nu[c.slot]).Branch?
    requires Slots(f.out, f.bc) && Next(c, f.nu[c.slot]).slot < |f.tab.bits| && Next(c, f.nu[c.slot]).slot < |f.pos|
    requires var f', x := BranchOpened(c, b, f), Next(c, f.nu[c.slot]);
             && x.slot != c.slot && Fresh(c.large, f'.nu) && x.slot < |f'.nu| && f'.nu[x.slot] == 0 && Fresh(x.small, f'.nu) && Fresh(x.large, f'.nu)
             && (f.nu[c.slot] == 1 ==> Laid(c.small, f.tab) && Done(c.small, b + 1, k, f'))
    ensures var f', x := BranchOpened(c, b, f), Next(c, f.nu[c.slot]);
            && Laid(x, f'.tab) && Met(c, b, k, f') && Met(x, f.bc, f.kc, f') && AtTop(x, f.bc, f.kc, f') && f'.nu[c.slot] == f.nu[c.slot] + 1
            && Below(c, f'.nu) == x && BelowB(c, b, f'.nu) == f.bc && BelowK(c, k, f'.nu) == f.kc
  {
    NextLabel(c, b, k, f);
    hide Done, Fresh;
    hide Branches;
  }
}
