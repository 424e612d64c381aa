/** Merging sorted delta records into the items of one leaf. */
module LeafMerge {
  import opened BwTypes
  import opened LeafChain

  /** What consolidation keeps of an insert or delete delta. */
  datatype Record = Record(item: Item, index: nat, exists_: bool, isInsert: bool)

  /** By key, and for equal keys by position. */
  predicate RecordLess(a: Record, b: Record)
  {
    a.item.key < b.item.key || (a.item.key == b.item.key && a.index < b.index)
  }

  ghost predicate SortedRecords(rs: seq<Record>)
  {
    forall i, j :: 0 <= i < j < |rs| ==> !RecordLess(rs[j], rs[i])
  }

  ghost predicate DistinctRecords(rs: seq<Record>)
  {
    forall i, j :: 0 <= i < j < |rs| ==> rs[i].item != rs[j].item
  }

  /** There is a record for the item. */
  ghost predicate Touched(rs: seq<Record>, x: Item)
  {
    exists i :: 0 <= i < |rs| && rs[i].item == x
  }

  ghost predicate Inserted(rs: seq<Record>, x: Item)
  {
    exists i :: 0 <= i < |rs| && rs[i].item == x && rs[i].isInsert
  }

  /** No place is behind `end`, and no item that is there is at `end`. */
  predicate PlacesWithin(rs: seq<Record>, end: nat)
  {
    forall i :: 0 <= i < |rs| ==> rs[i].index <= end && (rs[i].exists_ ==> rs[i].index < end)
  }

  /** The records fit the leaf: in order, one per item, each with the place of its item. */
  ghost predicate Fits(items: seq<Item>, end: nat, rs: seq<Record>)
  {
    && end <= |items| && SortedByKey(items) && Distinct(items)
    && SortedRecords(rs) && DistinctRecords(rs)
    && (forall i :: 0 <= i < |rs| ==> Placed(items, rs[i].item, rs[i].index, rs[i].exists_))
    && PlacesWithin(rs, end)
  }

  /** In key order the places do not go back, and they move past an item that is there. */
  lemma PlacesAdvance(items: seq<Item>, end: nat, rs: seq<Record>, i: nat, j: nat)
    requires Fits(items, end, rs) && i < j < |rs|
    ensures rs[i].index <= rs[j].index
    ensures rs[i].exists_ ==> rs[i].index < rs[j].index
    ensures rs[i].item.key <= rs[j].item.key
  {
    var a, b := rs[i], rs[j];
    assert !RecordLess(b, a);
    assert a.item != b.item;
    PlacedAbove(items, a.item, a.index, a.exists_, b.index);
  }

  /** Items and records merged: unchanged items up to the place of a record, then the record's item
      if it is an insertion, then on behind the place if the record replaces the item there. */
  function Drain(items: seq<Item>, start: nat, end: nat, rs: seq<Record>): (l: seq<Item>)
    requires start <= end <= |items| && PlacesWithin(rs, end)
    decreases |rs|
  {
    if rs == [] then items[start..end]
    else
      var r := rs[0];
      var rest := Drain(items, if r.exists_ then r.index + 1 else r.index, end, rs[1..]);
      items[start..if start <= r.index then r.index else start] + (if r.isInsert then [r.item] else []) + rest
  }

  lemma FitsTail(items: seq<Item>, end: nat, rs: seq<Record>)
    requires Fits(items, end, rs) && rs != []
    ensures Fits(items, end, rs[1..])
  {
    var t := rs[1..];
    assert forall i :: 0 <= i < |t| ==> t[i] == rs[i + 1];
  }

  ghost predicate StartsBefore(rs: seq<Record>, start: nat)
  {
    forall i :: 0 <= i < |rs| ==> start <= rs[i].index
  }

  lemma NextStart(items: seq<Item>, end: nat, rs: seq<Record>)
    requires Fits(items, end, rs) && rs != []
    ensures StartsBefore(rs[1..], if rs[0].exists_ then rs[0].index + 1 else rs[0].index)
  {
    forall j | 0 <= j < |rs| - 1
      ensures (if rs[0].exists_ then rs[0].index + 1 else rs[0].index) <= rs[1..][j].index
    {
      PlacesAdvance(items, end, rs, 0, j + 1);
    }
  }

  /** The merged list holds the inserted items and the untouched ones. */
  lemma {:induction false} DrainContents(items: seq<Item>, start: nat, end: nat, rs: seq<Record>, x: Item)
    requires Fits(items, end, rs) && start <= end && StartsBefore(rs, start)
    ensures x in Drain(items, start, end, rs) <==> Inserted(rs, x) || (x in items[start..end] && !Touched(rs, x))
    decreases |rs|
  {
    if rs != [] {
      var r := rs[0];
      var next := if r.exists_ then r.index + 1 else r.index;
      FitsTail(items, end, rs);
      NextStart(items, end, rs);
      DrainContents(items, next, end, rs[1..], x);
      DrainFirst(items, start, end, rs);
      TouchedTail(rs, x);
      UntouchedBefore(items, start, end, rs, x);
      if r.item == x { NotLater(items, end, rs); }
      hide *;
    }
  }

  /** What the first record does to the list. */
  lemma DrainFirst(items: seq<Item>, start: nat, end: nat, rs: seq<Record>)
    requires Fits(items, end, rs) && start <= end && StartsBefore(rs, start) && rs != []
    ensures var r := rs[0];
            var next := if r.exists_ then r.index + 1 else r.index;
            && start <= r.index <= next <= end <= |items|
            && Drain(items, start, end, rs) == items[start..r.index] + (if r.isInsert then [r.item] else []) + Drain(items, next, end, rs[1..])
            && items[start..end] == items[start..r.index] + (if r.exists_ then [r.item] else []) + items[next..end]
  {
    var r := rs[0];
    var next := if r.exists_ then r.index + 1 else r.index;
    assert PlacesWithin(rs, end) && Placed(items, r.item, r.index, r.exists_);
    hide SortedByKey, Distinct, SortedRecords, DistinctRecords;
    assert items[start..end] == items[start..r.index] + items[r.index..end];
    assert r.exists_ ==> items[r.index..end] == [r.item] + items[next..end];
  }

  lemma TouchedTail(rs: seq<Record>, x: Item)
    requires rs != []
    ensures Touched(rs, x) <==> rs[0].item == x || Touched(rs[1..], x)
    ensures Inserted(rs, x) <==> (rs[0].item == x && rs[0].isInsert) || Inserted(rs[1..], x)
  {
    var t := rs[1..];
    assert forall i :: 0 <= i < |t| ==> t[i] == rs[i + 1];
    if Touched(rs, x) && rs[0].item != x {
      var i :| 0 <= i < |rs| && rs[i].item == x;
      assert t[i - 1].item == x;
    }
    if Inserted(rs, x) && !(rs[0].item == x && rs[0].isInsert) {
      var i :| 0 <= i < |rs| && rs[i].item == x && rs[i].isInsert;
      assert t[i - 1].item == x;
    }
  }

  /** The items in front of the first place belong to no record. */
  lemma UntouchedBefore(items: seq<Item>, start: nat, end: nat, rs: seq<Record>, x: Item)
    requires Fits(items, end, rs) && rs != [] && start <= rs[0].index
    ensures x in items[start..rs[0].index] ==> !Touched(rs, x)
  {
    if x in items[start..rs[0].index] {
      var p :| 0 <= p < rs[0].index - start && items[start..rs[0].index][p] == x;
      assert items[start + p] == x;
      forall i | 0 <= i < |rs|
        ensures rs[i].item != x
      {
        if i > 0 { PlacesAdvance(items, end, rs, 0, i); }
      }
    }
  }

  /** The item of the first record comes up nowhere behind it. */
  lemma NotLater(items: seq<Item>, end: nat, rs: seq<Record>)
    requires Fits(items, end, rs) && rs != []
    ensures !Touched(rs[1..], rs[0].item)
    ensures rs[0].item !in items[if rs[0].exists_ then rs[0].index + 1 else rs[0].index..end]
  {
    var r, t := rs[0], rs[1..];
    var next := if r.exists_ then r.index + 1 else r.index;
    forall i | 0 <= i < |t|
      ensures t[i].item != r.item
    {
      assert rs[i + 1].item != rs[0].item;
    }
    forall p | next <= p < end
      ensures items[p] != r.item
    {
    }
  }

  // ------------------------------------------------------------------------------------
  // Order
  // ------------------------------------------------------------------------------------

  lemma {:induction false} DrainKeysFrom(items: seq<Item>, start: nat, end: nat, rs: seq<Record>, k: int)
    requires Fits(items, end, rs) && start <= end && StartsBefore(rs, start)
    requires forall i :: start <= i < end ==> k <= items[i].key
    requires forall i :: 0 <= i < |rs| ==> k <= rs[i].item.key
    ensures forall i :: 0 <= i < |Drain(items, start, end, rs)| ==> k <= Drain(items, start, end, rs)[i].key
    decreases |rs|
  {
    if rs != [] {
      var r := rs[0];
      FitsTail(items, end, rs);
      NextStart(items, end, rs);
      var t := rs[1..];
      assert forall i :: 0 <= i < |t| ==> t[i] == rs[i + 1];
      DrainKeysFrom(items, if r.exists_ then r.index + 1 else r.index, end, t, k);
    }
  }

  lemma {:induction false} DrainSorted(items: seq<Item>, start: nat, end: nat, rs: seq<Record>)
    requires Fits(items, end, rs) && start <= end && StartsBefore(rs, start)
    ensures SortedByKey(Drain(items, start, end, rs))
    decreases |rs|
  {
    if rs != [] {
      var r := rs[0];
      var next := if r.exists_ then r.index + 1 else r.index;
      FitsTail(items, end, rs);
      NextStart(items, end, rs);
      DrainSorted(items, next, end, rs[1..]);
      RestAbove(items, end, rs);
      DrainKeysFrom(items, next, end, rs[1..], r.item.key);
      SortedPieces(items[start..r.index], r, Drain(items, next, end, rs[1..]));
    }
  }

  lemma RestAbove(items: seq<Item>, end: nat, rs: seq<Record>)
    requires Fits(items, end, rs) && rs != []
    ensures forall i :: 0 <= i < rs[0].index ==> items[i].key <= rs[0].item.key
    ensures forall i :: (if rs[0].exists_ then rs[0].index + 1 else rs[0].index) <= i < end ==> rs[0].item.key <= items[i].key
    ensures forall i :: 0 <= i < |rs| - 1 ==> rs[0].item.key <= rs[1..][i].item.key
  {
    forall i | 0 <= i < |rs| - 1
      ensures rs[0].item.key <= rs[1..][i].item.key
    {
      PlacesAdvance(items, end, rs, 0, i + 1);
    }
  }

  lemma SortedPieces(a: seq<Item>, r: Record, b: seq<Item>)
    requires SortedByKey(a) && SortedByKey(b)
    requires forall i :: 0 <= i < |a| ==> a[i].key <= r.item.key
    requires forall i :: 0 <= i < |b| ==> r.item.key <= b[i].key
    ensures SortedByKey(a + (if r.isInsert then [r.item] else []) + b)
  {
  }

  lemma {:induction false} DrainDistinct(items: seq<Item>, start: nat, end: nat, rs: seq<Record>)
    requires Fits(items, end, rs) && start <= end && StartsBefore(rs, start)
    ensures Distinct(Drain(items, start, end, rs))
    decreases |rs|
  {
    if rs != [] {
      hide SortedByKey, SortedRecords, DistinctRecords, PlacesWithin;
      var r := rs[0];
      var next := if r.exists_ then r.index + 1 else r.index;
      FitsTail(items, end, rs);
      NextStart(items, end, rs);
      DrainFirst(items, start, end, rs);
      DrainDistinct(items, next, end, rs[1..]);
      var a, b := items[start..r.index], Drain(items, next, end, rs[1..]);
      forall x | x in a
        ensures x !in b && (r.isInsert ==> x != r.item)
      {
        DrainContents(items, next, end, rs[1..], x);
        UntouchedBefore(items, start, end, rs, x);
        TouchedTail(rs, x);
        InsertedTouched(rs, x);
        OnlyOnce(items, start, r.index, next, end, x);
      }
      DrainContents(items, next, end, rs[1..], r.item);
      NotLater(items, end, rs);
      InsertedTouched(rs[1..], r.item);
      DistinctPieces(a, if r.isInsert then [r.item] else [], b);
      hide *;
    }
  }

  lemma InsertedTouched(rs: seq<Record>, x: Item)
    ensures Inserted(rs, x) ==> Touched(rs, x)
  {
  }

  lemma OnlyOnce(items: seq<Item>, start: nat, p: nat, next: nat, end: nat, x: Item)
    requires Distinct(items) && start <= p <= next <= end <= |items|
    requires x in items[start..p]
    ensures x !in items[next..end]
  {
    var i :| 0 <= i < p - start && items[start..p][i] == x;
    assert items[start + i] == x;
    forall j | next <= j < end
      ensures items[j] != x
    {
    }
  }

  lemma DistinctPieces(a: seq<Item>, m: seq<Item>, b: seq<Item>)
    requires Distinct(a) && Distinct(b) && |m| <= 1
    requires forall x :: x in a ==> x !in b && x !in m
    requires forall x :: x in m ==> x !in b
    ensures Distinct(a + m + b)
  {
    var s := a + m + b;
    forall i, j | 0 <= i < j < |s|
      ensures s[i] != s[j]
    {
      if i < |a| {
        assert s[i] in a;
        if |a| <= j < |a| + |m| { assert s[j] in m; } else if |a| + |m| <= j { assert s[j] in b; }
      } else if i < |a| + |m| {
        assert s[i] in m && s[j] in b;
      }
    }
  }
}
