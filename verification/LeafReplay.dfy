/** How collected records and the rest of a leaf chain together keep its meaning. */
module LeafReplay {
  import opened BwTypes
  import opened SortedSmallSet
  import opened LeafChain
  import opened LeafMerge

  /** The records decide for the items they mention, the chain below for all others. */
  ghost predicate Overridden(c: Chain, rs: seq<Record>, x: Item)
  {
    if Touched(rs, x) then Inserted(rs, x) else x in Replay(c)
  }

  /** `high` cuts the chain no further up than its own high key. */
  predicate NotAbove(high: High, h: High)
  {
    h.PosInf? || (high.HighAt? && high.key <= h.key)
  }

  /** The records lie in key order, at or above the low key of the chain; every item seen in a newer
      delta of this key range has its record; and the places are places in the leaves below. */
  ghost predicate Ready(c: Chain, high: High, rs: seq<Record>, seen: set<Item>)
  {
    && WellFormed(c) && !c.Remove?
    && NotAbove(high, HighOf(c)) && (c.Leaf? || HighOf(c) == high)
    && SortedRecords(rs) && DistinctRecords(rs)
    && (forall i :: 0 <= i < |rs| ==> AboveLow(rs[i].item.key, LowOf(c)) && rs[i].item in seen)
    && (forall x :: x in seen && AboveLow(x.key, LowOf(c)) ==> Touched(rs, x))
    && (forall i :: 0 <= i < |rs| && BelowHigh(rs[i].item.key, high) ==>
          Placed(BaseFor(c, rs[i].item.key).items, rs[i].item, rs[i].index, rs[i].exists_))
  }

  ghost predicate OrdersRecords(less: (Record, Record) -> bool)
  {
    forall a, b :: less(a, b) <==> RecordLess(a, b)
  }

  // ------------------------------------------------------------------------------------
  // One data delta
  // ------------------------------------------------------------------------------------

  function RecordOf(c: Chain): Record
    requires c.Insert? || c.Delete?
  {
    Record(c.item, c.index, c.exists_, c.Insert?)
  }

  /** The records after a delta: its record is added unless a newer one for the item was seen. */
  function Recorded(rs: seq<Record>, seen: set<Item>, r: Record, less: (Record, Record) -> bool): seq<Record>
  {
    if r.item in seen then rs else InsertBefore(rs, UpperBoundBy(rs, r, less), r)
  }

  lemma InsertBeforeTouched(rs: seq<Record>, p: nat, r: Record, x: Item)
    requires p <= |rs|
    ensures Touched(InsertBefore(rs, p, r), x) <==> Touched(rs, x) || r.item == x
    ensures Inserted(InsertBefore(rs, p, r), x) <==> Inserted(rs, x) || (r.item == x && r.isInsert)
  {
    var s := InsertBefore(rs, p, r);
    assert s[p] == r;
    forall i | 0 <= i < |rs|
      ensures rs[i] == s[if i < p then i else i + 1]
    {
    }
  }

  lemma SortedInsert(rs: seq<Record>, r: Record, less: (Record, Record) -> bool)
    requires SortedRecords(rs) && OrdersRecords(less)
    ensures SortedRecords(InsertBefore(rs, UpperBoundBy(rs, r, less), r))
  {
    var p := UpperBoundBy(rs, r, less);
    var s := InsertBefore(rs, p, r);
    forall i, j | 0 <= i < j < |s|
      ensures !RecordLess(s[j], s[i])
    {
      if j == p {
        assert !less(r, rs[i]);
      } else if i == p {
        assert less(r, rs[p]);
        assert p == j - 1 || !RecordLess(rs[j - 1], rs[p]);
      } else {
        var i', j' := if i < p then i else i - 1, if j < p then j else j - 1;
        assert !RecordLess(rs[j'], rs[i']);
      }
    }
  }

  lemma DistinctInsert(rs: seq<Record>, p: nat, r: Record)
    requires p <= |rs| && DistinctRecords(rs) && !Touched(rs, r.item)
    ensures DistinctRecords(InsertBefore(rs, p, r))
  {
    var s := InsertBefore(rs, p, r);
    forall i, j | 0 <= i < j < |s|
      ensures s[i].item != s[j].item
    {
      if i != p && j != p {
        var i', j' := if i < p then i else i - 1, if j < p then j else j - 1;
        assert rs[i'].item != rs[j'].item;
      }
    }
  }

  lemma ReadyData(c: Chain, high: High, rs: seq<Record>, seen: set<Item>, less: (Record, Record) -> bool)
    requires Ready(c, high, rs, seen) && (c.Insert? || c.Delete?) && OrdersRecords(less)
    ensures Ready(c.child, high, Recorded(rs, seen, RecordOf(c), less), seen + {c.item})
  {
    var r := RecordOf(c);
    if r.item !in seen {
      var p := UpperBoundBy(rs, r, less);
      SortedInsert(rs, r, less);
      DistinctInsert(rs, p, r);
      PlacesInserted(c, high, rs, seen, p);
      TouchedInserted(c, high, rs, seen, p);
    }
  }

  lemma PlacesInserted(c: Chain, high: High, rs: seq<Record>, seen: set<Item>, p: nat)
    requires Ready(c, high, rs, seen) && (c.Insert? || c.Delete?) && p <= |rs|
    ensures var s := InsertBefore(rs, p, RecordOf(c));
            && (forall i :: 0 <= i < |s| ==> AboveLow(s[i].item.key, LowOf(c.child)) && s[i].item in seen + {c.item})
            && (forall i :: 0 <= i < |s| && BelowHigh(s[i].item.key, high) ==>
                  Placed(BaseFor(c.child, s[i].item.key).items, s[i].item, s[i].index, s[i].exists_))
  {
    hide SortedRecords, DistinctRecords, Touched;
    var s := InsertBefore(rs, p, RecordOf(c));
    forall i | 0 <= i < |s|
      ensures AboveLow(s[i].item.key, LowOf(c.child)) && s[i].item in seen + {c.item}
      ensures BelowHigh(s[i].item.key, high) ==> Placed(BaseFor(c.child, s[i].item.key).items, s[i].item, s[i].index, s[i].exists_)
    {
      if i != p {
        assert s[i] == rs[if i < p then i else i - 1];
      }
    }
  }

  lemma TouchedInserted(c: Chain, high: High, rs: seq<Record>, seen: set<Item>, p: nat)
    requires Ready(c, high, rs, seen) && (c.Insert? || c.Delete?) && p <= |rs|
    ensures forall x :: x in seen + {c.item} && AboveLow(x.key, LowOf(c)) ==> Touched(InsertBefore(rs, p, RecordOf(c)), x)
  {
    hide SortedRecords, DistinctRecords, Placed;
    forall x | x in seen + {c.item} && AboveLow(x.key, LowOf(c))
      ensures Touched(InsertBefore(rs, p, RecordOf(c)), x)
    {
      InsertBeforeTouched(rs, p, RecordOf(c), x);
    }
  }

  lemma DataKeepsMeaning(c: Chain, high: High, rs: seq<Record>, seen: set<Item>, less: (Record, Record) -> bool, x: Item)
    requires Ready(c, high, rs, seen) && (c.Insert? || c.Delete?) && AboveLow(x.key, LowOf(c))
    ensures Overridden(c, rs, x) <==> Overridden(c.child, Recorded(rs, seen, RecordOf(c), less), x)
  {
    hide Placed, SortedRecords, DistinctRecords;
    var r := RecordOf(c);
    if r.item in seen {
      assert Touched(rs, r.item);
    } else {
      InsertBeforeTouched(rs, UpperBoundBy(rs, r, less), r, x);
      InsertedTouched(rs, x);
      NotSeen(c, high, rs, seen, r.item);
    }
  }

  lemma NotSeen(c: Chain, high: High, rs: seq<Record>, seen: set<Item>, x: Item)
    requires Ready(c, high, rs, seen) && x !in seen
    ensures !Touched(rs, x)
  {
    hide Placed, SortedRecords, DistinctRecords;
  }

  lemma ReadySplit(c: Chain, high: High, rs: seq<Record>, seen: set<Item>)
    requires Ready(c, high, rs, seen) && c.Split?
    ensures Ready(c.child, high, rs, seen)
    ensures forall x: Item :: BelowHigh(x.key, high) ==> (Overridden(c, rs, x) <==> Overridden(c.child, rs, x))
  {
    SplitKey(c);
  }

  lemma SplitKey(c: Chain)
    requires WellFormed(c) && c.Split?
    ensures NotAbove(HighOf(c), HighOf(c.child)) && AboveLow(c.splitKey, LowOf(c))
  {
    var items := c.child.items;
    assert InRange(items[|items| - c.siblingCount].key, c.child.low, c.child.high);
  }

  // ------------------------------------------------------------------------------------
  // Cutting the records at a high key
  // ------------------------------------------------------------------------------------

  /** Going back from the end: the number of records up to the last one below the high key. */
  function BelowCount(rs: seq<Record>, high: High): (n: nat)
    ensures n <= |rs|
    ensures n > 0 ==> BelowHigh(rs[n - 1].item.key, high)
    ensures forall i :: n <= i < |rs| ==> !BelowHigh(rs[i].item.key, high)
  {
    if rs == [] || BelowHigh(rs[|rs| - 1].item.key, high) then |rs| else BelowCount(rs[..|rs| - 1], high)
  }

  lemma BelowCountSplits(rs: seq<Record>, high: High)
    requires SortedRecords(rs)
    ensures forall i :: 0 <= i < |rs| ==> (i < BelowCount(rs, high) <==> BelowHigh(rs[i].item.key, high))
  {
    var n := BelowCount(rs, high);
    forall i | 0 <= i < n
      ensures BelowHigh(rs[i].item.key, high)
    {
      if i < n - 1 { assert !RecordLess(rs[n - 1], rs[i]); }
    }
  }

  lemma TouchedCut(rs: seq<Record>, high: High, x: Item)
    requires SortedRecords(rs)
    ensures var n := BelowCount(rs, high);
            && (BelowHigh(x.key, high) ==> (Touched(rs[..n], x) <==> Touched(rs, x)) && (Inserted(rs[..n], x) <==> Inserted(rs, x)))
            && (!BelowHigh(x.key, high) ==> (Touched(rs[n..], x) <==> Touched(rs, x)) && (Inserted(rs[n..], x) <==> Inserted(rs, x)))
  {
    var n := BelowCount(rs, high);
    BelowCountSplits(rs, high);
    var a, b := rs[..n], rs[n..];
    assert forall i :: 0 <= i < |a| ==> a[i] == rs[i];
    assert forall i :: 0 <= i < |b| ==> b[i] == rs[n + i];
    assert forall i :: n <= i < |rs| ==> rs[i] == b[i - n];
  }

  // ------------------------------------------------------------------------------------
  // The two sides of a merge
  // ------------------------------------------------------------------------------------

  lemma ReadyLeft(c: Chain, high: High, rs: seq<Record>, seen: set<Item>)
    requires Ready(c, high, rs, seen) && c.Merge?
    ensures Ready(c.child, HighOf(c.child), rs, seen)
  {
  }

  /** What one collection leaves behind: the records from its high key on, and only items of its own
      range newly seen. */
  ghost predicate Left(low: Low, high: High, rs: seq<Record>, seen: set<Item>, rs': seq<Record>, seen': set<Item>)
  {
    && rs' == rs[BelowCount(rs, high)..]
    && seen <= seen'
    && (forall x :: x in seen' && x !in seen ==> InRange(x.key, low, high))
  }

  lemma ReadyRight(c: Chain, high: High, rs: seq<Record>, seen: set<Item>, rs': seq<Record>, seen': set<Item>)
    requires Ready(c, high, rs, seen) && c.Merge?
    requires Left(LowOf(c.child), HighOf(c.child), rs, seen, rs', seen')
    ensures Ready(c.right, high, rs', seen')
  {
    var n := BelowCount(rs, HighOf(c.child));
    BelowCountSplits(rs, HighOf(c.child));
    assert forall i :: 0 <= i < |rs'| ==> rs'[i] == rs[n + i];
    forall x | x in seen' && AboveLow(x.key, LowOf(c.right))
      ensures Touched(rs', x)
    {
      TouchedCut(rs, HighOf(c.child), x);
    }
  }

  lemma LeftTwice(c: Chain, high: High, rs: seq<Record>, seen: set<Item>, rs1: seq<Record>, seen1: set<Item>, rs2: seq<Record>, seen2: set<Item>)
    requires Ready(c, high, rs, seen) && c.Merge?
    requires Left(LowOf(c.child), HighOf(c.child), rs, seen, rs1, seen1)
    requires Left(LowOf(c.right), high, rs1, seen1, rs2, seen2)
    ensures Left(LowOf(c), high, rs, seen, rs2, seen2)
  {
    MergeBounds(c, high, rs, seen);
    hide Ready, BelowCount, LowOf, HighOf;
    CutTwice(rs, HighOf(c.child), high);
  }

  lemma MergeBounds(c: Chain, high: High, rs: seq<Record>, seen: set<Item>)
    requires Ready(c, high, rs, seen) && c.Merge?
    ensures HighOf(c.child).HighAt? && BelowHigh(HighOf(c.child).key, high)
    ensures LowOf(c.right) == LowAt(HighOf(c.child).key) && AboveLow(HighOf(c.child).key, LowOf(c))
    ensures LowOf(c) == LowOf(c.child) && SortedRecords(rs)
  {
    hide Placed;
  }

  lemma CutTwice(rs: seq<Record>, h1: High, h2: High)
    requires SortedRecords(rs) && h1.HighAt? && BelowHigh(h1.key, h2)
    ensures rs[BelowCount(rs, h1)..][BelowCount(rs[BelowCount(rs, h1)..], h2)..] == rs[BelowCount(rs, h2)..]
  {
    hide BelowCount, SortedRecords;
    var n := BelowCount(rs, h1);
    var rs1 := rs[n..];
    var k := BelowCount(rs1, h2);
    BelowCountSplits(rs, h1);
    SortedSuffix(rs, n);
    BelowCountSplits(rs1, h2);
    CutPlaces(rs, h1, h2, n, k);
    BelowCountIs(rs, h2, n + k);
  }

  lemma SortedSuffix(rs: seq<Record>, n: nat)
    requires SortedRecords(rs) && n <= |rs|
    ensures SortedRecords(rs[n..])
  {
  }

  lemma CutPlaces(rs: seq<Record>, h1: High, h2: High, n: nat, k: nat)
    requires h1.HighAt? && BelowHigh(h1.key, h2) && n + k <= |rs|
    requires forall i :: 0 <= i < |rs| ==> (i < n <==> BelowHigh(rs[i].item.key, h1))
    requires forall i :: 0 <= i < |rs| - n ==> (i < k <==> BelowHigh(rs[n..][i].item.key, h2))
    ensures rs[n..][k..] == rs[n + k..]
    ensures n + k > 0 ==> BelowHigh(rs[n + k - 1].item.key, h2)
    ensures forall i :: n + k <= i < |rs| ==> !BelowHigh(rs[i].item.key, h2)
  {
    forall i | n + k <= i < |rs|
      ensures !BelowHigh(rs[i].item.key, h2)
    {
      assert rs[n..][i - n] == rs[i];
    }
    if k > 0 { assert rs[n..][k - 1] == rs[n + k - 1]; }
  }

  lemma BelowCountIs(rs: seq<Record>, high: High, n: nat)
    requires n <= |rs| && (forall i :: n <= i < |rs| ==> !BelowHigh(rs[i].item.key, high))
    requires n > 0 ==> BelowHigh(rs[n - 1].item.key, high)
    ensures BelowCount(rs, high) == n
  {
  }
}
