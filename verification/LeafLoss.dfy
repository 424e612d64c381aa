/** Where the bounds carried over a merge come from, and how a running tree gets there. */
module LeafLoss {
  import opened BwTypes
  import opened LeafChain
  import opened LeafLevel
  import LeafValues

  // ------------------------------------------------------------------------------------
  // What the bounds are
  // ------------------------------------------------------------------------------------

  /** The place in the oldest record for a smaller key on the way down, if there is one. */
  function OldestSmaller(c: Chain, key: int): (place: int)
    ensures place >= -1
  {
    match c
    case Leaf(_, _, _) => -1
    case Insert(item, index, _, child) => var p := OldestSmaller(child, key); if p == -1 && item.key < key then index else p
    case Delete(item, index, _, child) => var p := OldestSmaller(child, key); if p == -1 && item.key < key then index else p
    case Merge(mergeKey, _, right, child) => OldestSmaller(if mergeKey <= key then right else child, key)
    case Split(_, _, _, child) => OldestSmaller(child, key)
    case Remove(_, child) => OldestSmaller(child, key)
  }

  /** The place in the oldest record for a larger key on the way down, if there is one. */
  function OldestLarger(c: Chain, key: int): (place: int)
    ensures place >= -1
  {
    match c
    case Leaf(_, _, _) => -1
    case Insert(item, index, _, child) => var p := OldestLarger(child, key); if p == -1 && key < item.key then index else p
    case Delete(item, index, _, child) => var p := OldestLarger(child, key); if p == -1 && key < item.key then index else p
    case Merge(mergeKey, _, right, child) => OldestLarger(if mergeKey <= key then right else child, key)
    case Split(_, _, _, child) => OldestLarger(child, key)
    case Remove(_, child) => OldestLarger(child, key)
  }

  /** Only the oldest record on each side of the key counts. */
  lemma {:induction false} HintsAreOldest(c: Chain, key: int, start: nat, end: int)
    ensures var s, e := OldestSmaller(c, key), OldestLarger(c, key);
            LeafValues.Hints(c, key, start, end) == (if s == -1 then start else s, if e == -1 then end else e)
    decreases c, 0
  {
    match c
    case Leaf(_, _, _) =>
    case Merge(mergeKey, _, right, child) => HintsAreOldest(if mergeKey <= key then right else child, key, start, end);
    case Insert(item, index, _, child) => PastOldest(child, key, item.key, index, start, end);
    case Delete(item, index, _, child) => PastOldest(child, key, item.key, index, start, end);
    case Split(_, _, _, child) => HintsAreOldest(child, key, start, end);
    case Remove(_, child) => HintsAreOldest(child, key, start, end);
  }

  lemma {:induction false} PastOldest(c: Chain, key: int, k: int, index: nat, start: nat, end: int)
    ensures var s, e := OldestSmaller(c, key), OldestLarger(c, key);
            LeafValues.HintsPast(c, key, k, index, start, end)
            == (if s != -1 then s else if k < key then index else start, if e != -1 then e else if key < k then index else end)
    decreases c, 1
  {
    if k == key {
      HintsAreOldest(c, key, start, end);
    } else if k < key {
      HintsAreOldest(c, key, index, end);
    } else {
      HintsAreOldest(c, key, start, index);
    }
  }

  /** The search for a key is carried out within the leaf, and comes upon every item with the key there,
      exactly when the oldest place for a smaller key is not behind the first of them and the oldest place
      for a larger key is neither in front of it nor behind the leaf. */
  lemma FoundExactly(c: Chain, key: int)
    requires WellFormed(c) && exists x :: x in BaseFor(c, key).items && x.key == key
    ensures var items := BaseFor(c, key).items;
            var hints, first := LeafValues.Hints(c, key, 0, -1), LowerBound(items, key);
            (LeafValues.InLeaf(items, hints) && forall i :: 0 <= i < |items| && items[i].key == key ==> !LeafValues.Excluded(items, hints, i))
            <==> OldestSmaller(c, key) <= first && (OldestLarger(c, key) == -1 || first <= OldestLarger(c, key) <= |items|)
  {
    hide WellFormed, LeafValues.Hints, BaseFor, OldestSmaller, OldestLarger, LeafValues.InLeaf, LeafValues.Excluded, LowerBound;
    LeafValues.BaseSorted(c, key);
    HintsAreOldest(c, key, 0, -1);
    FoundIn(BaseFor(c, key).items, key, OldestSmaller(c, key), OldestLarger(c, key));
  }

  lemma FoundIn(items: seq<Item>, key: int, s: int, e: int)
    requires SortedByKey(items) && s >= -1 && e >= -1 && exists x :: x in items && x.key == key
    ensures var hints: (nat, int) := (if s == -1 then 0 else s, e);
            (LeafValues.InLeaf(items, hints) && forall i :: 0 <= i < |items| && items[i].key == key ==> !LeafValues.Excluded(items, hints, i))
            <==> s <= LowerBound(items, key) && (e == -1 || LowerBound(items, key) <= e <= |items|)
  {
    LowerBoundSplits(items, key);
    var first := LowerBound(items, key);
    var x :| x in items && x.key == key;
    var i :| 0 <= i < |items| && items[i] == x;
    assert first < |items| && items[first].key == key;
    assert forall i :: 0 <= i < |items| && items[i].key == key ==> first <= i && LowerBound(items, items[i].key) == first;
    hide LowerBound, SortedByKey;
  }

  /** The bounds are positions in the leaf, in order, exactly when the oldest place for a smaller key is
      within the leaf, and the oldest place for a larger key is neither in front of it nor behind the leaf. */
  lemma InLeafExactly(c: Chain, key: int)
    ensures var items, s, e := BaseFor(c, key).items, OldestSmaller(c, key), OldestLarger(c, key);
            LeafValues.InLeaf(items, LeafValues.Hints(c, key, 0, -1))
            <==> s <= |items| && (e == -1 || ((if s < 0 then 0 else s) <= e <= |items|))
  {
    HintsAreOldest(c, key, 0, -1);
    hide BaseFor, OldestSmaller, OldestLarger, LeafValues.Hints;
  }

  /** No value of the key is lost exactly when every item of the leaf with the key that has no record on
      the way down lies at or behind the oldest place for a smaller key, and the first item with the key
      does not lie behind the oldest place for a larger one. */
  lemma NothingLostExactly(c: Chain, key: int)
    ensures var items, s, e := BaseFor(c, key).items, OldestSmaller(c, key), OldestLarger(c, key);
            (forall v :: !LeafValues.Lost(c, Item(key, v)))
            <==> (forall i :: 0 <= i < |items| && items[i].key == key && !LeafValues.Recorded(c, items[i]) ==>
                    s <= i && (e == -1 || LowerBound(items, key) <= e))
  {
    HintsAreOldest(c, key, 0, -1);
    hide BaseFor, OldestSmaller, OldestLarger, LeafValues.Hints, LowerBound, LeafValues.Recorded;
    var items := BaseFor(c, key).items;
    if forall v :: !LeafValues.Lost(c, Item(key, v)) {
      forall i | 0 <= i < |items| && items[i].key == key && !LeafValues.Recorded(c, items[i])
        ensures !LeafValues.Excluded(items, LeafValues.Hints(c, key, 0, -1), i)
      {
        assert items[i] == Item(key, items[i].value);
        assert !LeafValues.Lost(c, Item(key, items[i].value));
      }
    }
  }

  /** Collecting the values of a key within the leaf lists all that are stored exactly under that
      condition: what it leaves out are the stored values that are lost. */
  lemma ListsAllExactly(c: Chain, key: int)
    requires WellFormed(c) && !c.Remove? && InRange(key, LowOf(c), HighOf(c))
    ensures (forall v :: Item(key, v) in Replay(c) ==> !LeafValues.Lost(c, Item(key, v))) <==> (forall v :: !LeafValues.Lost(c, Item(key, v)))
  {
    forall v | LeafValues.Lost(c, Item(key, v))
      ensures Item(key, v) in Replay(c)
    {
      LostIsStored(c, Item(key, v));
    }
    hide WellFormed, LeafValues.Lost, Replay;
  }

  /** What is lost is stored: it stands in the leaf, and no record takes it away. */
  lemma {:induction false} LostIsStored(c: Chain, x: Item)
    requires WellFormed(c) && InRange(x.key, LowOf(c), HighOf(c)) && !LeafValues.Recorded(c, x) && x in BaseFor(c, x.key).items
    ensures x in Replay(c)
  {
    hide Placed, SplitsLeaf, LeafWellFormed;
    match c
    case Leaf(_, _, _) =>
    case Insert(_, _, _, child) => LostIsStored(child, x);
    case Delete(_, _, _, child) => LostIsStored(child, x);
    case Split(_, _, _, child) => SplitKeepsRange(c, x.key); LostIsStored(child, x);
    case Merge(_, _, right, child) => LostIsStored(if c.mergeKey <= x.key then right else child, x);
    case Remove(_, child) => LostIsStored(child, x);
  }

  /** A chain on which a recorded value is found though its item in the leaf is not: the deletion of the
      item of the right leaf, and its insertion again, over a record of the left one. */
  lemma RecordedIsFound()
    ensures var x := Item(12, 0);
            var c := Chain.Insert(x, 0, true, Chain.Delete(x, 0, true, Chain.Delete(Item(2, 0), 1, true, MergedLeaves())));
            && WellFormed(c) && x in Replay(c) && LeafValues.InLeaf(BaseFor(c, 12).items, LeafValues.Hints(c, 12, 0, -1))
            && OldestSmaller(c, 12) == 1 && LowerBound(BaseFor(c, 12).items, 12) == 0 && forall v :: !LeafValues.Lost(c, Item(12, v))
  {
    MergedFormed();
    var x := Item(12, 0);
    assert RightLeaf().items[0] == x && LeftLeaf().items[1] == Item(2, 0);
    assert x in Replay(RightLeaf()) && Item(2, 0) in Replay(LeftLeaf());
    var first := Chain.Delete(Item(2, 0), 1, true, MergedLeaves());
    assert BaseFor(MergedLeaves(), 2) == LeftLeaf();
    assert WellFormed(first) by { hide Replay; assert Item(2, 0) in Replay(MergedLeaves()); }
    var second := Chain.Delete(x, 0, true, first);
    assert WellFormed(second);
    var c := Chain.Insert(x, 0, true, second);
    assert WellFormed(c);
    hide WellFormed, Placed;
    forall v
      ensures !LeafValues.Lost(c, Item(12, v))
    {
      assert v == 0 ==> LeafValues.Recorded(c, Item(12, v));
    }
  }

  function LeftLeaf(): Chain { Leaf(NegInf, HighAt(10, 7), [Item(1, 0), Item(2, 0), Item(3, 0), Item(4, 0), Item(6, 0)]) }

  function RightLeaf(): Chain { Leaf(LowAt(10), PosInf, [Item(12, 0)]) }

  function MergedLeaves(): Chain { Merge(10, 7, RightLeaf(), LeftLeaf()) }

  lemma MergedFormed()
    ensures WellFormed(MergedLeaves()) && Item(7, 0) !in Replay(MergedLeaves()) && Item(5, 0) !in Replay(MergedLeaves()) && Item(11, 0) !in Replay(MergedLeaves())
    ensures BaseFor(MergedLeaves(), 7) == LeftLeaf() && BaseFor(MergedLeaves(), 5) == LeftLeaf() && BaseFor(MergedLeaves(), 11) == RightLeaf()
  {
    assert WellFormed(LeftLeaf()) && WellFormed(RightLeaf());
  }

  /** A chain where a place in the left leaf lies outside the right one: 5, where there is one item. */
  lemma ForeignHintOutside()
    ensures var c := Chain.Insert(Item(7, 0), 5, false, MergedLeaves());
            && WellFormed(c) && InRange(12, LowOf(c), HighOf(c)) && BaseFor(c, 12) == RightLeaf() && Item(12, 0) in Replay(c)
            && LeafValues.Hints(c, 12, 0, -1) == (5, -1) && !LeafValues.InLeaf(RightLeaf().items, LeafValues.Hints(c, 12, 0, -1))
  {
    MergedFormed();
    var c := Chain.Insert(Item(7, 0), 5, false, MergedLeaves());
    assert Item(12, 0) in Replay(RightLeaf());
    assert WellFormed(c) by { hide Replay; }
    hide WellFormed;
  }

  /** A chain where the bounds cross: one comes from each of the two leaves. */
  lemma ForeignHintCrosses()
    ensures var c := Chain.Insert(Item(11, 0), 0, false, Chain.Insert(Item(5, 0), 4, false, MergedLeaves()));
            && WellFormed(c) && InRange(6, LowOf(c), HighOf(c)) && BaseFor(c, 6) == LeftLeaf()
            && LeafValues.Hints(c, 6, 0, -1) == (4, 0) && !LeafValues.InLeaf(LeftLeaf().items, LeafValues.Hints(c, 6, 0, -1))
  {
    MergedFormed();
    var lower := Chain.Insert(Item(5, 0), 4, false, MergedLeaves());
    assert WellFormed(lower) by { hide Replay; }
    assert Item(11, 0) !in Replay(lower);
    var c := Chain.Insert(Item(11, 0), 0, false, lower);
    assert WellFormed(c) by { hide Replay; }
    hide WellFormed;
  }

  // ------------------------------------------------------------------------------------
  // A run that ends there
  // ------------------------------------------------------------------------------------

  /** The items with keys from `a` on, `n` of them. */
  function Items(a: nat, n: nat): (l: seq<Item>)
    ensures |l| == n && forall i :: 0 <= i < n ==> l[i] == Item(a + i, 0)
  {
    seq(n, i => Item(a + i, 0))
  }

  lemma ItemsMore(a: nat, n: nat)
    ensures Items(a, n + 1) == Items(a, n) + [Item(a + n, 0)]
    ensures Item(a + n, 0) !in Items(a, n)
  {
  }

  lemma ItemsFormed(low: Low, high: High, a: nat, n: nat)
    requires forall k :: a <= k < a + n ==> InRange(k, low, high)
    ensures WellFormed(Leaf(low, high, Items(a, n)))
  {
  }

  /** A leaf is consolidated that holds one item more than before. */
  lemma Grown(low: Low, high: High, a: nat, n: nat)
    requires InRange(a + n, low, high)
    ensures var c, x := Leaf(low, high, Items(a, n)), Item(a + n, 0);
            x !in Replay(c) && Placed(c.items, x, n, false) && Replay(Chain.Insert(x, n, false, c)) == Replay(Leaf(low, high, Items(a, n + 1)))
  {
    ItemsMore(a, n);
    forall x
      ensures x in Items(a, n + 1) <==> x in Items(a, n) || x == Item(a + n, 0)
    {
    }
  }

  /** And one that holds one item less. */
  lemma Shrunk(low: Low, high: High, a: nat, n: nat)
    ensures var c, x := Leaf(low, high, Items(a, n + 1)), Item(a + n, 0);
            x in Replay(c) && Placed(c.items, x, n, true) && Replay(Chain.Delete(x, n, true, c)) == Replay(Leaf(low, high, Items(a, n)))
  {
    ItemsMore(a, n);
    assert Items(a, n + 1)[n] == Item(a + n, 0);
    forall x
      ensures x in Items(a, n + 1) <==> x in Items(a, n) || x == Item(a + n, 0)
    {
    }
  }

  lemma {:induction false} RunOn(s: State, steps: seq<Step>, s1: State, more: seq<Step>, s2: State)
    requires Run(s, steps, s1) && Run(s1, more, s2)
    ensures Run(s, steps + more, s2)
    decreases |steps|
  {
    hide Enabled, After;
    if steps == [] {
      assert steps + more == more;
    } else {
      RunOn(After(s, steps[0]), steps[1..], s1, more, s2);
      assert (steps + more)[1..] == steps[1..] + more;
    }
  }

  lemma RunOne(s: State, step: Step)
    requires Enabled(s, step)
    ensures Run(s, [step], After(s, step))
  {
    hide Enabled, After;
    assert [step][1..] == [];
  }

  /** The leaf is in the table as it is, has been seen so, and can be reached. */
  ghost predicate Holds(s: State, id: NodeId, c: Chain)
  {
    Reachable(s, id) && s.table[id] == c && Snapshot(id, c) in s.seen
  }

  /** What the run does to one leaf leaves the others and the unfinished splits alone. */
  predicate OnlyAt(s: State, id: NodeId, s': State)
  {
    && s'.order == s.order && s'.pending == s.pending && s'.table.Keys == s.table.Keys && s.seen <= s'.seen
    && forall x :: x in s.table && x != id ==> s'.table[x] == s.table[x]
  }

  lemma {:induction false} Grow(s: State, id: NodeId, low: Low, high: High, a: nat, n: nat, m: nat) returns (steps: seq<Step>, s': State)
    requires n <= m && Holds(s, id, Leaf(low, high, Items(a, n))) && forall k :: a <= k < a + m ==> InRange(k, low, high)
    ensures Run(s, steps, s') && Holds(s', id, Leaf(low, high, Items(a, m))) && OnlyAt(s, id, s')
    decreases m - n
  {
    if n == m {
      return [], s;
    }
    var x, leaf := Item(a + n, 0), Leaf(low, high, Items(a, n + 1));
    Grown(low, high, a, n);
    ItemsFormed(low, high, a, n + 1);
    var insert, consolidate := InsertItem(id, x, n, false), Consolidate(id, leaf);
    var s1 := After(s, insert);
    var s2 := After(s1, consolidate);
    var rest, last := Grow(s2, id, low, high, a, n + 1, m);
    hide Enabled, After, OnlyAt, Holds;
    RunOne(s, insert);
    RunOne(s1, consolidate);
    RunOn(s, [insert], s1, [consolidate], s2);
    RunOn(s, [insert] + [consolidate], s2, rest, last);
    steps, s' := [insert] + [consolidate] + rest, last;
  }

  lemma {:induction false} Shrink(s: State, id: NodeId, low: Low, high: High, a: nat, n: nat, m: nat) returns (steps: seq<Step>, s': State)
    requires m <= n && Holds(s, id, Leaf(low, high, Items(a, n))) && forall k :: a <= k < a + n ==> InRange(k, low, high)
    ensures Run(s, steps, s') && Holds(s', id, Leaf(low, high, Items(a, m))) && OnlyAt(s, id, s')
    decreases n - m
  {
    if n == m {
      return [], s;
    }
    var x, leaf := Item(a + n - 1, 0), Leaf(low, high, Items(a, n - 1));
    Shrunk(low, high, a, n - 1);
    ItemsFormed(low, high, a, n - 1);
    var delete, consolidate := DeleteItem(id, x, n - 1, true), Consolidate(id, leaf);
    var s1 := After(s, delete);
    var s2 := After(s1, consolidate);
    var rest, last := Shrink(s2, id, low, high, a, n - 1, m);
    hide Enabled, After, OnlyAt, Holds;
    RunOne(s, delete);
    RunOne(s1, consolidate);
    RunOn(s, [delete], s1, [consolidate], s2);
    RunOn(s, [delete] + [consolidate], s2, rest, last);
    steps, s' := [delete] + [consolidate] + rest, last;
  }

  function LowHalf(): Chain { Leaf(NegInf, HighAt(64, 1), Items(0, 64)) }

  function LastItem(): Chain { Leaf(LowAt(64), PosInf, Items(64, 1)) }

  function MergedRun(): Chain { Merge(64, 1, LastItem(), LowHalf()) }

  /** 128 items, as the first leaf is about to be split. */
  lemma FullLeaf() returns (s: State, steps: seq<Step>, s': State)
    ensures Init(s) && Run(s, steps, s') && Holds(s', 0, Leaf(NegInf, PosInf, Items(0, 128)))
    ensures s'.order == [0] && s'.pending == map[] && s'.table.Keys == {0}
  {
    s := State(map[0 := Leaf(NegInf, PosInf, [])], [0], map[], {Snapshot(0, Leaf(NegInf, PosInf, []))});
    assert Items(0, 0) == [];
    assert Init(s);
    steps, s' := Grow(s, 0, NegInf, PosInf, 0, 0, 128);
  }

  lemma Halves()
    ensures Items(0, 128)[64..] == Items(64, 64) && SplitsLeaf(Items(0, 128), 64, 64)
    ensures Replay(Split(64, 1, 64, Leaf(NegInf, PosInf, Items(0, 128)))) == Replay(LowHalf())
  {
    forall x
      ensures x in Items(0, 64) <==> x in Items(0, 128) && x.key < 64
    {
      if x in Items(0, 128) && x.key < 64 {
        var i :| 0 <= i < 128 && Items(0, 128)[i] == x;
        assert Items(0, 64)[i] == x;
      }
      if x in Items(0, 64) {
        var i :| 0 <= i < 64 && Items(0, 64)[i] == x;
        assert Items(0, 128)[i] == x;
      }
    }
  }

  /** The leaf is split in the middle. */
  lemma SplitLeaf(s: State) returns (steps: seq<Step>, s': State)
    requires Holds(s, 0, Leaf(NegInf, PosInf, Items(0, 128))) && s.order == [0] && s.pending == map[] && s.table.Keys == {0}
    ensures Run(s, steps, s') && Holds(s', 0, Split(64, 1, 64, Leaf(NegInf, PosInf, Items(0, 128))))
    ensures Holds(s', 1, Leaf(LowAt(64), PosInf, Items(64, 64))) && s'.pending == map[]
  {
    Halves();
    var prepare, install := PrepareSplit(0, 1, Leaf(NegInf, PosInf, Items(0, 128)), 64, 64), InstallSplit(1);
    var s1 := After(s, prepare);
    s' := After(s1, install);
    hide Items, SplitsLeaf, Replay;
    assert Enabled(s1, install);
    RunOne(s, prepare);
    RunOne(s1, install);
    RunOn(s, [prepare], s1, [install], s');
    steps := [prepare] + [install];
  }

  /** The right leaf has one item left; it is removed and merged into the left one. */
  lemma MergeLeaves(s: State) returns (steps: seq<Step>, s': State)
    requires Holds(s, 0, Split(64, 1, 64, Leaf(NegInf, PosInf, Items(0, 128)))) && Holds(s, 1, LastItem()) && s.pending == map[]
    ensures Run(s, steps, s') && Holds(s', 0, MergedRun())
  {
    Halves();
    ItemsFormed(NegInf, HighAt(64, 1), 0, 64);
    hide Items, SplitsLeaf, Replay, WellFormed;
    var consolidate, remove, merge := Consolidate(0, LowHalf()), InstallRemove(1), InstallMerge(0, 1, LastItem());
    var s1 := After(s, consolidate);
    var s2 := After(s1, remove);
    s' := After(s2, merge);
    RunOne(s, consolidate);
    RunOne(s1, remove);
    RunOne(s2, merge);
    RunOn(s, [consolidate], s1, [remove], s2);
    RunOn(s, [consolidate] + [remove], s2, [merge], s');
    steps := [consolidate] + [remove] + [merge];
  }

  lemma MergedReached() returns (s: State, steps: seq<Step>, s': State)
    ensures Init(s) && Run(s, steps, s') && Holds(s', 0, MergedRun())
  {
    var a, s1, b, s2, c, s3, d;
    s, a, s1 := FullLeaf();
    b, s2 := SplitLeaf(s1);
    c, s3 := Shrink(s2, 1, LowAt(64), PosInf, 64, 64, 1);
    d, s' := MergeLeaves(s3);
    hide *;
    RunOn(s, a, s1, b, s2);
    RunOn(s, a + b, s2, c, s3);
    RunOn(s, a + b + c, s3, d, s');
    steps := a + b + c + d;
  }

  /** A pair with a new value for the key 0, or for the key 5, is inserted on top of the merge. */
  function OnTop(key: nat): Chain { Chain.Insert(Item(key, 1), key + 1, false, MergedRun()) }

  lemma PlacedLow(key: nat)
    requires key < 64
    ensures Item(key, 1) !in Replay(MergedRun()) && BaseFor(MergedRun(), key) == LowHalf() && Placed(Items(0, 64), Item(key, 1), key + 1, false)
  {
  }

  lemma OnTopReached(key: nat) returns (s: State, steps: seq<Step>, s': State)
    requires key < 64
    ensures Init(s) && Run(s, steps, s') && Holds(s', 0, OnTop(key))
  {
    var before, s1;
    s, before, s1 := MergedReached();
    PlacedLow(key);
    hide Items, Replay, Placed;
    var insert := InsertItem(0, Item(key, 1), key + 1, false);
    s' := After(s1, insert);
    RunOne(s1, insert);
    hide Enabled, After, Holds;
    RunOn(s, before, s1, [insert], s');
    steps := before + [insert];
  }

  /** From the empty tree a run leads to a leaf chain that stores a pair which collecting the values of
      its key does not find: after 128 insertions, a split, 63 deletions, a merge and one more insertion. */
  lemma LossReached() returns (s: State, steps: seq<Step>, s': State)
    ensures Init(s) && Run(s, steps, s') && Reachable(s', 0) && !s'.table[0].Remove?
    ensures Stored(s', Item(64, 0)) && LeafValues.InLeaf(BaseFor(s'.table[0], 64).items, LeafValues.Hints(s'.table[0], 64, 0, -1))
    ensures LeafValues.Lost(s'.table[0], Item(64, 0))
  {
    s, steps, s' := OnTopReached(0);
    RunStored(s, steps, s', 0, Item(64, 0));
    assert LastItem().items[0] == Item(64, 0);
    assert LeafValues.Hints(OnTop(0), 64, 0, -1) == (1, -1);
    assert LeafValues.Excluded(LastItem().items, (1, -1), 0);
  }

  /** And another one to a chain where the search would begin outside the leaf. */
  lemma OutsideReached() returns (s: State, steps: seq<Step>, s': State)
    ensures Init(s) && Run(s, steps, s') && Reachable(s', 0) && !s'.table[0].Remove? && Stored(s', Item(64, 0))
    ensures !LeafValues.InLeaf(BaseFor(s'.table[0], 64).items, LeafValues.Hints(s'.table[0], 64, 0, -1))
  {
    s, steps, s' := OnTopReached(5);
    RunStored(s, steps, s', 5, Item(64, 0));
    assert LeafValues.Hints(OnTop(5), 64, 0, -1) == (6, -1);
  }

  lemma RunStored(s: State, steps: seq<Step>, s': State, key: nat, x: Item)
    requires Init(s) && Run(s, steps, s') && Holds(s', 0, OnTop(key)) && key < 64 && x == Item(64, 0)
    ensures x in Replay(OnTop(key)) && Stored(s', x) && Inv(s')
  {
    EveryRun(s, steps, s');
    assert LastItem().items[0] == x;
    assert x in Replay(LastItem());
    assert x in Replay(OnTop(key));
    hide Run, Init, Replay, Effects;
    assert 0 in s'.order;
  }
}
