/** Consolidation of a leaf chain into one leaf node. */
module LeafConsolidate {
  import opened BwTypes
  import opened SortedSmallSet
  import opened LeafChain
  import opened LeafMerge
  import opened LeafReplay

  // ------------------------------------------------------------------------------------
  // The leaf at the bottom
  // ------------------------------------------------------------------------------------

  function CopyEnd(items: seq<Item>, high: High): (end: nat)
    ensures end <= |items|
  {
    if high.PosInf? then |items| else LowerBound(items, high.key)
  }

  lemma CopyEndSplits(items: seq<Item>, high: High)
    requires SortedByKey(items)
    ensures forall i :: 0 <= i < |items| ==> (i < CopyEnd(items, high) <==> BelowHigh(items[i].key, high))
  {
    if high.HighAt? { LowerBoundSplits(items, high.key); }
  }

  lemma PlacedBelow(items: seq<Item>, high: High, x: Item, index: nat, ex: bool)
    requires SortedByKey(items) && Placed(items, x, index, ex) && BelowHigh(x.key, high)
    ensures index <= CopyEnd(items, high) && (ex ==> index < CopyEnd(items, high))
  {
    CopyEndSplits(items, high);
    if index > CopyEnd(items, high) {
      PlacedAbove(items, x, index, ex, CopyEnd(items, high));
    }
  }

  /** The records below the high key fit the leaf. */
  lemma ReadyFits(c: Chain, high: High, rs: seq<Record>, seen: set<Item>)
    requires Ready(c, high, rs, seen) && c.Leaf?
    ensures Fits(c.items, CopyEnd(c.items, high), rs[..BelowCount(rs, high)])
  {
    hide Placed, SortedByKey, Distinct, CopyEnd, BelowCount, Touched;
    var n := BelowCount(rs, high);
    var cut := rs[..n];
    BelowCountSplits(rs, high);
    forall i | 0 <= i < n
      ensures Placed(c.items, cut[i].item, cut[i].index, cut[i].exists_)
      ensures cut[i].index <= CopyEnd(c.items, high) && (cut[i].exists_ ==> cut[i].index < CopyEnd(c.items, high))
    {
      assert cut[i] == rs[i] && BelowHigh(rs[i].item.key, high);
      assert BaseFor(c, rs[i].item.key) == c;
      PlacedBelow(c.items, high, rs[i].item, rs[i].index, rs[i].exists_);
    }
  }

  /** A list with exactly the items of the range that records and chain together hold. */
  ghost predicate ListFor(l: seq<Item>, c: Chain, high: High, rs: seq<Record>)
  {
    && SortedByKey(l) && Distinct(l)
    && (forall x :: x in l <==> InRange(x.key, LowOf(c), high) && Overridden(c, rs, x))
  }

  lemma LeafListFor(c: Chain, high: High, rs: seq<Record>, seen: set<Item>)
    requires Ready(c, high, rs, seen) && c.Leaf?
    requires Fits(c.items, CopyEnd(c.items, high), rs[..BelowCount(rs, high)])
    ensures ListFor(Drain(c.items, 0, CopyEnd(c.items, high), rs[..BelowCount(rs, high)]), c, high, rs)
  {
    hide *;
    var cut, end := rs[..BelowCount(rs, high)], CopyEnd(c.items, high);
    FromStart(cut);
    FitsFacts(c.items, end, cut);
    DrainSorted(c.items, 0, end, cut);
    DrainDistinct(c.items, 0, end, cut);
    var l := Drain(c.items, 0, end, cut);
    forall x
      ensures x in l <==> InRange(x.key, LowOf(c), high) && Overridden(c, rs, x)
    {
      DrainContents(c.items, 0, end, cut, x);
      LeafItems(c, high, rs, seen, x);
    }
    ListForIs(l, c, high, rs);
  }

  lemma FromStart(rs: seq<Record>)
    ensures StartsBefore(rs, 0)
  {
  }

  lemma ListForIs(l: seq<Item>, c: Chain, high: High, rs: seq<Record>)
    ensures ListFor(l, c, high, rs) <==>
      && SortedByKey(l) && Distinct(l)
      && (forall x :: x in l <==> InRange(x.key, LowOf(c), high) && Overridden(c, rs, x))
  {
    hide SortedByKey, Distinct, InRange, LowOf, Overridden;
  }

  lemma LeafItems(c: Chain, high: High, rs: seq<Record>, seen: set<Item>, x: Item)
    requires Ready(c, high, rs, seen) && c.Leaf?
    ensures var cut := rs[..BelowCount(rs, high)];
            (Inserted(cut, x) || (x in c.items[0..CopyEnd(c.items, high)] && !Touched(cut, x)))
            <==> (InRange(x.key, LowOf(c), high) && Overridden(c, rs, x))
  {
    hide CopyEnd, Placed, Distinct, SortedRecords, DistinctRecords, BelowCount;
    TouchedCut(rs, high, x);
    InsertedTouched(rs, x);
    BelowCountSplits(rs, high);
    CutItems(c.items, high, x);
    TouchedBelow(rs, high, x);
    assert x in c.items ==> InRange(x.key, c.low, c.high);
  }

  lemma TouchedBelow(rs: seq<Record>, high: High, x: Item)
    requires SortedRecords(rs)
    ensures Touched(rs[..BelowCount(rs, high)], x) ==> BelowHigh(x.key, high)
    ensures Inserted(rs[..BelowCount(rs, high)], x) ==> BelowHigh(x.key, high)
  {
    BelowCountSplits(rs, high);
  }

  lemma CutItems(items: seq<Item>, high: High, x: Item)
    requires SortedByKey(items)
    ensures x in items[0..CopyEnd(items, high)] <==> x in items && BelowHigh(x.key, high)
  {
    CopyEndSplits(items, high);
    hide CopyEnd, SortedByKey, BelowHigh;
    var cut := items[0..CopyEnd(items, high)];
    if x in items && BelowHigh(x.key, high) {
      var i :| 0 <= i < |items| && items[i] == x;
      assert cut[i] == x;
    }
  }

  // The steps of the merge loop.

  lemma DrainFrom(items: seq<Item>, start: nat, end: nat, rs: seq<Record>)
    requires Fits(items, end, rs) && rs != [] && start <= rs[0].index
    ensures Drain(items, start, end, rs) == items[start..rs[0].index] + Drain(items, rs[0].index, end, rs)
  {
  }

  lemma DrainOne(items: seq<Item>, start: nat, end: nat, rs: seq<Record>)
    requires Fits(items, end, rs) && rs != [] && start == rs[0].index
    ensures Fits(items, end, rs[1..])
    ensures StartsBefore(rs[1..], if rs[0].exists_ then start + 1 else start)
    ensures (if rs[0].exists_ then start + 1 else start) <= end
    ensures Drain(items, start, end, rs)
            == (if rs[0].isInsert then [rs[0].item] else []) + Drain(items, if rs[0].exists_ then start + 1 else start, end, rs[1..])
  {
    hide *;
    FitsTail(items, end, rs);
    NextStart(items, end, rs);
    FitsFacts(items, end, rs);
    WithinFirst(rs, end);
    DrainUnfold(items, start, end, rs);
  }

  lemma WithinFirst(rs: seq<Record>, end: nat)
    requires PlacesWithin(rs, end) && rs != []
    ensures PlacesWithin(rs[1..], end) && rs[0].index <= end && (rs[0].exists_ ==> rs[0].index < end)
  {
  }

  lemma DrainUnfold(items: seq<Item>, start: nat, end: nat, rs: seq<Record>)
    requires rs != [] && start == rs[0].index && (rs[0].exists_ ==> start < end)
    requires start <= end <= |items| && PlacesWithin(rs, end) && PlacesWithin(rs[1..], end)
    ensures Drain(items, start, end, rs)
            == (if rs[0].isInsert then [rs[0].item] else []) + Drain(items, if rs[0].exists_ then start + 1 else start, end, rs[1..])
  {
    hide PlacesWithin;
  }

  lemma FitsFacts(items: seq<Item>, end: nat, rs: seq<Record>)
    requires Fits(items, end, rs)
    ensures end <= |items| && PlacesWithin(rs, end)
  {
    hide PlacesWithin, SortedByKey, Distinct, SortedRecords, DistinctRecords, Placed;
  }

  lemma StartsAt(rs: seq<Record>, start: nat)
    requires StartsBefore(rs, start) && rs != []
    ensures start <= rs[0].index
  {
  }

  lemma StartsFrom(items: seq<Item>, end: nat, rs: seq<Record>, start: nat)
    requires Fits(items, end, rs) && rs != [] && start == rs[0].index
    ensures StartsBefore(rs, start)
  {
    forall i | 0 <= i < |rs|
      ensures start <= rs[i].index
    {
      if i > 0 { PlacesAdvance(items, end, rs, 0, i); }
    }
  }

  /** Goes back from the end of the set to the last record below the high key. */
  method FindEnd(sss: SortedSmallSet<Record>, high: High) returns (endIt: nat)
    requires sss.Valid()
    ensures sss.startP <= endIt <= sss.endP && endIt == sss.startP + BelowCount(sss.Elements(), high)
  {
    hide RecordLess;
    var it := sss.endP - 1;
    if high.HighAt? {
      while it >= sss.startP
        invariant sss.startP - 1 <= it < sss.endP
        invariant forall i :: it < i < sss.endP ==> !BelowHigh(sss.data[i].item.key, high)
      {
        if sss.data[it].item.key < high.key {
          break;
        }
        it := it - 1;
      }
    }
    endIt := it + 1;
    BelowCountIs(sss.Elements(), high, endIt - sss.startP);
  }

  /** What is left to merge: the leaf from `start` on with the records up to `endIt`. */
  ghost predicate Merging(items: seq<Item>, start: nat, end: nat, rs: seq<Record>)
  {
    Fits(items, end, rs) && StartsBefore(rs, start) && start <= end
  }

  ghost function Merged(items: seq<Item>, start: nat, end: nat, rs: seq<Record>): seq<Item>
    requires Merging(items, start, end, rs)
  {
    Drain(items, start, end, rs)
  }

  lemma MergeFrom(items: seq<Item>, start: nat, end: nat, rs: seq<Record>)
    requires Merging(items, start, end, rs) && rs != []
    ensures start <= rs[0].index <= |items| && Merging(items, rs[0].index, end, rs)
    ensures Merged(items, start, end, rs) == items[start..rs[0].index] + Merged(items, rs[0].index, end, rs)
  {
    hide Fits, Drain;
    FitsFacts(items, end, rs);
    StartsFrom(items, end, rs, rs[0].index);
    DrainFrom(items, start, end, rs);
  }

  lemma MergeOne(items: seq<Item>, start: nat, end: nat, rs: seq<Record>)
    requires Merging(items, start, end, rs) && rs != [] && start == rs[0].index
    ensures Merging(items, if rs[0].exists_ then start + 1 else start, end, rs[1..])
    ensures Merged(items, start, end, rs)
            == (if rs[0].isInsert then [rs[0].item] else []) + Merged(items, if rs[0].exists_ then start + 1 else start, end, rs[1..])
  {
    hide Fits, Drain, StartsBefore;
    DrainOne(items, start, end, rs);
  }

  lemma MergeDone(items: seq<Item>, start: nat, end: nat)
    requires Merging(items, start, end, [])
    ensures start <= end <= |items| && Merged(items, start, end, []) == items[start..end]
  {
  }

  lemma MergeNext(items: seq<Item>, start: nat, end: nat, rs: seq<Record>)
    requires Merging(items, start, end, rs) && rs != []
    ensures start <= rs[0].index
  {
    hide Fits;
  }

  /** Where copying goes on: behind the place if its item was overwritten. */
  function Behind(index: nat, overwritten: bool): nat
  {
    if overwritten then index + 1 else index
  }

  /** Drains the records of one place. */
  method DrainPlace(items: seq<Item>, ghost end: nat, sss: SortedSmallSet<Record>, endIt: nat, newItems: seq<Item>)
    returns (copyStart: nat, out: seq<Item>)
    requires sss.Valid() && sss.startP < endIt <= sss.endP
    requires Merging(items, sss.data[sss.startP].index, end, sss.data[sss.startP..endIt])
    modifies sss`startP
    ensures sss.Valid() && old(sss.startP) < sss.startP <= endIt
    ensures Merging(items, copyStart, end, sss.data[sss.startP..endIt])
    ensures out + Merged(items, copyStart, end, sss.data[sss.startP..endIt])
            == newItems + Merged(items, old(sss.data[sss.startP].index), end, old(sss.data[sss.startP..endIt]))
  {
    hide Merging, Merged;
    var currentIndex := sss.data[sss.startP].index;
    var overwritten := false;
    out := newItems;
    while sss.data[sss.startP].index == currentIndex
      invariant old(sss.startP) <= sss.startP < endIt <= sss.endP
      invariant sss.startP == old(sss.startP) ==> !overwritten
      invariant Merging(items, Behind(currentIndex, overwritten), end, sss.data[sss.startP..endIt])
      invariant out + Merged(items, Behind(currentIndex, overwritten), end, sss.data[sss.startP..endIt])
                == newItems + Merged(items, currentIndex, end, old(sss.data[sss.startP..endIt]))
      decreases endIt - sss.startP
    {
      ghost var rs := sss.data[sss.startP..endIt];
      assert rs[0] == sss.data[sss.startP];
      MergeNext(items, Behind(currentIndex, overwritten), end, rs);
      MergeOne(items, currentIndex, end, rs);
      overwritten := overwritten || sss.data[sss.startP].exists_;
      var r := sss.PopFront();
      assert sss.data[sss.startP..endIt] == rs[1..];
      ghost var rest := Merged(items, Behind(currentIndex, overwritten), end, rs[1..]);
      Regroup(out, if r.isInsert then [r.item] else [], rest);
      if r.isInsert {
        out := out + [r.item];
      }
      if sss.startP == endIt {
        break;
      }
    }
    copyStart := currentIndex;
    if overwritten {
      copyStart := copyStart + 1;
    }
  }

  /** Merges the records below the high key into the leaf and appends the result to the new node. */
  method CollectLeaf(leaf: Chain, high: High, sss: SortedSmallSet<Record>, newItems: seq<Item>, ghost seen: set<Item>)
    returns (out: seq<Item>)
    requires sss.Valid() && leaf.Leaf? && Ready(leaf, high, sss.Elements(), seen)
    modifies sss`startP
    ensures sss.Valid()
    ensures sss.Elements() == old(sss.Elements())[BelowCount(old(sss.Elements()), high)..]
    ensures newItems <= out && ListFor(out[|newItems|..], leaf, high, old(sss.Elements()))
  {
    hide Merging, Merged, Ready, ListFor, CopyEnd, BelowCount;
    var items := leaf.items;
    var copyEnd := CopyEnd(items, high);
    var endIt := FindEnd(sss, high);
    ghost var rs := sss.Elements();
    ghost var cut := sss.data[sss.startP..endIt];
    SliceOfSlice(sss.data[..], sss.startP, endIt, sss.endP);
    assert cut == rs[..endIt - sss.startP];
    MergeAll(leaf, high, rs, seen);
    var copyStart: nat := 0;
    out := newItems;
    while sss.startP != endIt
      invariant old(sss.startP) <= sss.startP <= endIt
      invariant Merging(items, copyStart, copyEnd, sss.data[sss.startP..endIt])
      invariant out + Merged(items, copyStart, copyEnd, sss.data[sss.startP..endIt]) == newItems + Merged(items, 0, copyEnd, cut)
      decreases endIt - sss.startP
    {
      var front := sss.GetFront();
      assert sss.data[sss.startP..endIt][0] == front;
      MergeFrom(items, copyStart, copyEnd, sss.data[sss.startP..endIt]);
      out := out + items[copyStart..front.index];
      copyStart, out := DrainPlace(items, copyEnd, sss, endIt, out);
    }
    assert sss.data[sss.startP..endIt] == [];
    MergeDone(items, copyStart, copyEnd);
    out := out + items[copyStart..copyEnd];
    assert out[|newItems|..] == Merged(items, 0, copyEnd, cut);
  }

  /** All of the leaf merged with all records below the high key is what the chain stands for. */
  lemma MergeAll(leaf: Chain, high: High, rs: seq<Record>, seen: set<Item>)
    requires Ready(leaf, high, rs, seen) && leaf.Leaf?
    ensures Merging(leaf.items, 0, CopyEnd(leaf.items, high), rs[..BelowCount(rs, high)])
    ensures ListFor(Merged(leaf.items, 0, CopyEnd(leaf.items, high), rs[..BelowCount(rs, high)]), leaf, high, rs)
  {
    hide Fits, Ready, ListFor, Drain, CopyEnd, BelowCount, StartsBefore;
    ReadyFits(leaf, high, rs, seen);
    FromStart(rs[..BelowCount(rs, high)]);
    LeafListFor(leaf, high, rs, seen);
  }

  // ------------------------------------------------------------------------------------
  // The whole chain
  // ------------------------------------------------------------------------------------

  /** Between two nodes of one chain: the rest of the chain with the records collected so far stands
      for what the whole chain stood for at the start. */
  ghost predicate Collecting(top: Chain, rs0: seq<Record>, seen0: set<Item>, node: Chain, rs: seq<Record>, seen: set<Item>)
  {
    var high := HighOf(top);
    && Ready(node, high, rs, seen) && LowOf(node) == LowOf(top)
    && seen0 <= seen && (forall x :: x in seen && x !in seen0 ==> InRange(x.key, LowOf(top), high))
    && rs[BelowCount(rs, high)..] == rs0[BelowCount(rs0, high)..]
    && (forall x: Item :: InRange(x.key, LowOf(top), high) ==> (Overridden(top, rs0, x) <==> Overridden(node, rs, x)))
  }

  lemma CollectingStarts(top: Chain, rs: seq<Record>, seen: set<Item>)
    requires Ready(top, HighOf(top), rs, seen)
    ensures Collecting(top, rs, seen, top, rs, seen)
  {
    hide Ready, Overridden, BelowCount;
  }

  lemma CollectingData(top: Chain, rs0: seq<Record>, seen0: set<Item>, c: Chain, rs: seq<Record>, seen: set<Item>, less: (Record, Record) -> bool)
    requires Collecting(top, rs0, seen0, c, rs, seen) && (c.Insert? || c.Delete?) && OrdersRecords(less)
    ensures Collecting(top, rs0, seen0, c.child, Recorded(rs, seen, RecordOf(c), less), seen + {c.item})
  {
    hide Ready, Overridden, BelowCount, HighOf, Recorded, OrdersRecords, RecordOf, WellFormed;
    var high := HighOf(top);
    ReadyData(c, high, rs, seen, less);
    DataInRange(c, high, rs, seen);
    CutUnchanged(c, high, rs, seen, less);
    forall x: Item | InRange(x.key, LowOf(top), high)
      ensures Overridden(top, rs0, x) <==> Overridden(c.child, Recorded(rs, seen, RecordOf(c), less), x)
    {
      DataKeepsMeaning(c, high, rs, seen, less, x);
    }
  }

  lemma DataInRange(c: Chain, high: High, rs: seq<Record>, seen: set<Item>)
    requires Ready(c, high, rs, seen) && (c.Insert? || c.Delete?)
    ensures InRange(c.item.key, LowOf(c), high) && SortedRecords(rs)
  {
    hide Placed, SortedRecords, DistinctRecords, Touched;
  }

  /** The new record goes in front of those from the high key on. */
  lemma CutUnchanged(c: Chain, high: High, rs: seq<Record>, seen: set<Item>, less: (Record, Record) -> bool)
    requires Ready(c, high, rs, seen) && (c.Insert? || c.Delete?) && OrdersRecords(less)
    ensures var rs' := Recorded(rs, seen, RecordOf(c), less);
            rs'[BelowCount(rs', high)..] == rs[BelowCount(rs, high)..]
  {
    hide Ready, BelowCount, SortedRecords;
    var r := RecordOf(c);
    var p, n := UpperBoundBy(rs, r, less), BelowCount(rs, high);
    DataInRange(c, high, rs, seen);
    BelowCountSplits(rs, high);
    var s := InsertBefore(rs, p, r);
    assert p <= n by {
      if n < |rs| { assert less(r, rs[n]); }
    }
    if r.item !in seen {
      InsertedPlaces(rs, p, r, n, high);
      BelowCountIs(s, high, n + 1);
    }
  }

  lemma InsertedPlaces(rs: seq<Record>, p: nat, r: Record, n: nat, high: High)
    requires p <= n <= |rs| && BelowHigh(r.item.key, high)
    requires forall i :: 0 <= i < |rs| ==> (i < n <==> BelowHigh(rs[i].item.key, high))
    ensures var s := InsertBefore(rs, p, r);
            && s[n + 1..] == rs[n..] && BelowHigh(s[n].item.key, high)
            && (forall i :: n + 1 <= i < |s| ==> !BelowHigh(s[i].item.key, high))
  {
    var s := InsertBefore(rs, p, r);
    assert s[n + 1..] == rs[n..];
    assert s[n] == if p == n then r else rs[n - 1];
    forall i | n + 1 <= i < |s|
      ensures !BelowHigh(s[i].item.key, high)
    {
      assert s[i] == rs[i - 1];
    }
  }

  lemma CollectingSplit(top: Chain, rs0: seq<Record>, seen0: set<Item>, c: Chain, rs: seq<Record>, seen: set<Item>)
    requires Collecting(top, rs0, seen0, c, rs, seen) && c.Split?
    ensures Collecting(top, rs0, seen0, c.child, rs, seen)
  {
    hide Ready, Overridden, BelowCount, HighOf, WellFormed;
    ReadySplit(c, HighOf(top), rs, seen);
  }

  lemma CollectingLeaf(top: Chain, rs0: seq<Record>, seen0: set<Item>, c: Chain, rs: seq<Record>, seen: set<Item>, l: seq<Item>)
    requires Collecting(top, rs0, seen0, c, rs, seen) && ListFor(l, c, HighOf(top), rs)
    ensures ListFor(l, top, HighOf(top), rs0)
    ensures Left(LowOf(top), HighOf(top), rs0, seen0, rs[BelowCount(rs, HighOf(top))..], seen)
  {
    hide Ready, Overridden, BelowCount, HighOf, SortedByKey, Distinct;
  }

  lemma CollectingMerge(top: Chain, rs0: seq<Record>, seen0: set<Item>, c: Chain, rs: seq<Record>, seen: set<Item>,
      rs': seq<Record>, seen': set<Item>, l: seq<Item>)
    requires Collecting(top, rs0, seen0, c, rs, seen) && Left(LowOf(c), HighOf(top), rs, seen, rs', seen') && ListFor(l, c, HighOf(top), rs)
    ensures Left(LowOf(top), HighOf(top), rs0, seen0, rs', seen') && ListFor(l, top, HighOf(top), rs0)
  {
    hide Ready, Overridden, BelowCount, HighOf, SortedByKey, Distinct;
  }

  /** The lists of the two sides of a merge, one behind the other. */
  lemma MergeListFor(c: Chain, high: High, rs: seq<Record>, seen: set<Item>, rs1: seq<Record>, seen1: set<Item>, l1: seq<Item>, l2: seq<Item>)
    requires Ready(c, high, rs, seen) && c.Merge?
    requires Left(LowOf(c.child), HighOf(c.child), rs, seen, rs1, seen1)
    requires ListFor(l1, c.child, HighOf(c.child), rs) && ListFor(l2, c.right, high, rs1)
    ensures ListFor(l1 + l2, c, high, rs)
  {
    hide *;
    ListForIs(l1, c.child, HighOf(c.child), rs);
    ListForIs(l2, c.right, high, rs1);
    ListForIs(l1 + l2, c, high, rs);
    MergeBounds(c, high, rs, seen);
    var k := HighOf(c.child).key;
    forall x
      ensures x in l1 + l2 <==> InRange(x.key, LowOf(c), high) && Overridden(c, rs, x)
      ensures x in l1 ==> x.key < k
      ensures x in l2 ==> k <= x.key
    {
      SideOf(c, high, rs, seen, rs1, seen1, x);
    }
    SortedSides(l1, l2, k);
    DistinctSides(l1, l2, k);
  }

  lemma SortedSides(a: seq<Item>, b: seq<Item>, k: int)
    requires SortedByKey(a) && SortedByKey(b)
    requires forall x :: x in a ==> x.key < k
    requires forall x :: x in b ==> k <= x.key
    ensures SortedByKey(a + b)
  {
    var s := a + b;
    forall i, j | 0 <= i < j < |s|
      ensures s[i].key <= s[j].key
    {
      if i < |a| <= j { assert s[i] in a && s[j] in b; }
    }
  }

  lemma DistinctSides(a: seq<Item>, b: seq<Item>, k: int)
    requires Distinct(a) && Distinct(b)
    requires forall x :: x in a ==> x.key < k
    requires forall x :: x in b ==> k <= x.key
    ensures Distinct(a + b)
  {
    var s := a + b;
    forall i, j | 0 <= i < j < |s|
      ensures s[i] != s[j]
    {
      if i < |a| <= j { assert s[i] in a && s[j] in b; }
    }
  }

  lemma SideOf(c: Chain, high: High, rs: seq<Record>, seen: set<Item>, rs1: seq<Record>, seen1: set<Item>, x: Item)
    requires Ready(c, high, rs, seen) && c.Merge?
    requires Left(LowOf(c.child), HighOf(c.child), rs, seen, rs1, seen1)
    requires HighOf(c.child).HighAt?
    ensures var k := HighOf(c.child).key;
            && (InRange(x.key, LowOf(c.child), HighOf(c.child)) ==> x.key < k)
            && (InRange(x.key, LowOf(c.right), high) ==> k <= x.key)
            && ((InRange(x.key, LowOf(c), high) && Overridden(c, rs, x))
                <==> ((InRange(x.key, LowOf(c.child), HighOf(c.child)) && Overridden(c.child, rs, x))
                      || (InRange(x.key, LowOf(c.right), high) && Overridden(c.right, rs1, x))))
  {
    MergeBounds(c, high, rs, seen);
    MergeReplay(c, high, rs, seen, x);
    hide Ready, LowOf, HighOf, BelowCount, Replay, Touched, Inserted;
    TouchedCut(rs, HighOf(c.child), x);
    BoundsChain(x.key, LowOf(c), HighOf(c.child), high);
  }

  lemma BoundsChain(k: int, low: Low, mid: High, high: High)
    requires mid.HighAt? && BelowHigh(mid.key, high) && AboveLow(mid.key, low)
    ensures k < mid.key ==> BelowHigh(k, high)
    ensures mid.key <= k ==> AboveLow(k, low)
  {
  }

  lemma MergeReplay(c: Chain, high: High, rs: seq<Record>, seen: set<Item>, x: Item)
    requires Ready(c, high, rs, seen) && c.Merge? && HighOf(c.child).HighAt?
    ensures x.key < HighOf(c.child).key ==> (x in Replay(c) <==> x in Replay(c.child))
    ensures HighOf(c.child).key <= x.key ==> (x in Replay(c) <==> x in Replay(c.right))
  {
    hide Placed, Touched, SortedRecords, DistinctRecords;
    MergeSides(c, x);
  }

  /** Walks down the chain, putting the newest record of each item into the set, and merges the set
      into the leaf at the bottom; at a merge the left chain is collected before the right one. */
  method CollectAllValuesOnLeafRecursive(top: Chain, sss: SortedSmallSet<Record>, deltaSet: set<Item>, newItems: seq<Item>)
    returns (deltaSet': set<Item>, out: seq<Item>)
    requires sss.Valid() && OrdersRecords(sss.less) && sss.endP + Depth(top) <= sss.data.Length
    requires Ready(top, HighOf(top), sss.Elements(), deltaSet)
    modifies sss`startP, sss`endP, sss.data
    ensures sss.Valid() && sss.endP <= old(sss.endP) + Depth(top)
    ensures Left(LowOf(top), HighOf(top), old(sss.Elements()), deltaSet, sss.Elements(), deltaSet')
    ensures newItems <= out && ListFor(out[|newItems|..], top, HighOf(top), old(sss.Elements()))
    decreases top
  {
    hide Ready, Collecting, ListFor, Left, OrdersRecords, LowOf, HighOf;
    var high := HighOf(top);
    var node := top;
    deltaSet' := deltaSet;
    ghost var rs0 := sss.Elements();
    CollectingStarts(top, rs0, deltaSet);
    while !node.Leaf? && !node.Merge?
      invariant node == top || node < top
      invariant sss.Valid() && sss.endP + Depth(node) <= old(sss.endP) + Depth(top)
      invariant Collecting(top, rs0, deltaSet, node, sss.Elements(), deltaSet')
      decreases node
    {
      CollectingReady(top, rs0, deltaSet, node, sss.Elements(), deltaSet');
      if node.Split? {
        CollectingSplit(top, rs0, deltaSet, node, sss.Elements(), deltaSet');
      } else {
        CollectingData(top, rs0, deltaSet, node, sss.Elements(), deltaSet', sss.less);
        if node.item !in deltaSet' {
          deltaSet' := deltaSet' + {node.item};
          sss.InsertNoDedup(RecordOf(node));
        } else {
          assert deltaSet' == deltaSet' + {node.item};
        }
      }
      node := node.child;
    }
    ghost var rs := sss.Elements();
    CollectingReady(top, rs0, deltaSet, node, rs, deltaSet');
    if node.Leaf? {
      out := CollectLeaf(node, high, sss, newItems, deltaSet');
      CollectingLeaf(top, rs0, deltaSet, node, rs, deltaSet', out[|newItems|..]);
    } else {
      ghost var seen := deltaSet';
      ReadyLeft(node, high, rs, seen);
      deltaSet', out := CollectAllValuesOnLeafRecursive(node.child, sss, deltaSet', newItems);
      ghost var rs1, seen1, l1 := sss.Elements(), deltaSet', out[|newItems|..];
      ReadyRight(node, high, rs, seen, rs1, seen1);
      MergeHigh(node, high, rs, seen);
      ghost var out1 := out;
      deltaSet', out := CollectAllValuesOnLeafRecursive(node.right, sss, deltaSet', out);
      ghost var l2 := out[|out1|..];
      LeftTwice(node, high, rs, seen, rs1, seen1, sss.Elements(), deltaSet');
      MergeListFor(node, high, rs, seen, rs1, seen1, l1, l2);
      Appended(newItems, out1, out);
      CollectingMerge(top, rs0, deltaSet, node, rs, seen, sss.Elements(), deltaSet', l1 + l2);
    }
  }

  lemma CollectingReady(top: Chain, rs0: seq<Record>, seen0: set<Item>, node: Chain, rs: seq<Record>, seen: set<Item>)
    requires Collecting(top, rs0, seen0, node, rs, seen)
    ensures Ready(node, HighOf(top), rs, seen) && !node.Remove?
  {
    hide Overridden, WellFormed, BelowCount, HighOf, LowOf, SortedRecords, DistinctRecords, Placed, Touched;
  }

  lemma MergeHigh(c: Chain, high: High, rs: seq<Record>, seen: set<Item>)
    requires Ready(c, high, rs, seen) && c.Merge?
    ensures HighOf(c.right) == high
  {
    hide WellFormed, SortedRecords, DistinctRecords, Placed, Touched;
  }

  /** `CollectAllValuesOnLeaf`: a leaf node with the same bounds, holding exactly the items the log
      replays to, sorted, and as many as the count in the metadata says. */
  method CollectAllValuesOnLeaf(top: Chain) returns (leaf: Chain)
    requires WellFormed(top) && !top.Remove?
    ensures leaf.Leaf? && leaf.low == LowOf(top) && leaf.high == HighOf(top)
    ensures WellFormed(leaf) && Replay(leaf) == Replay(top)
    ensures |leaf.items| == ItemCount(top)
  {
    hide Ready, Left, WellFormed;
    var sss := new SortedSmallSet<Record>(Depth(top), RecordLess, (a, b) => false);
    assert OrdersRecords(sss.less);
    ReadyAtStart(top);
    var seen, items := CollectAllValuesOnLeafRecursive(top, sss, {}, []);
    leaf := Leaf(LowOf(top), HighOf(top), items);
    assert items[0..] == items;
    SameMeaning(top, items);
  }

  lemma ReadyAtStart(c: Chain)
    requires WellFormed(c) && !c.Remove?
    ensures Ready(c, HighOf(c), [], {})
  {
    hide WellFormed;
  }

  lemma SameMeaning(c: Chain, items: seq<Item>)
    requires WellFormed(c) && ListFor(items, c, HighOf(c), [])
    ensures WellFormed(Leaf(LowOf(c), HighOf(c), items))
    ensures Replay(Leaf(LowOf(c), HighOf(c), items)) == Replay(c)
    ensures |items| == ItemCount(c)
  {
    hide WellFormed, Replay, LowOf, HighOf, ItemCount, SortedByKey, Distinct;
    var leaf := Leaf(LowOf(c), HighOf(c), items);
    forall x
      ensures x in items <==> x in Replay(c)
    {
      if x in Replay(c) { ReplayInRange(c, x); }
    }
    LeafMeaning(leaf);
    assert ItemSet(items) == Replay(c);
    ItemCountExact(c);
    DistinctCount(items);
  }

  lemma LeafMeaning(c: Chain)
    requires c.Leaf?
    ensures Replay(c) == ItemSet(c.items)
    ensures WellFormed(c) <==> SortedByKey(c.items) && Distinct(c.items) && forall x :: x in c.items ==> InRange(x.key, c.low, c.high)
  {
    hide SortedByKey, Distinct;
  }
}
