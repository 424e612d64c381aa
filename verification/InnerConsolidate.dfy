/** Consolidation of an inner chain into one inner node. */
module InnerConsolidate {
  import opened BwTypes
  import opened SortedSmallSet
  import opened InnerChain
  import opened InnerSearch
  import opened InnerMerge

  /** The records decide for the keys they mention, the chain below for all others. */
  ghost predicate Overridden(c: Inner, onRight: bool, rs: seq<SepRecord>, s: Sep)
  {
    if Touched(rs, s.key) then Inserted(rs, s) else s in SepsFrom(c, onRight)
  }

  predicate NotAbove(high: High, h: High)
  {
    h.PosInf? || (high.HighAt? && high.key <= h.key)
  }

  ghost predicate Ready(c: Inner, lowId: NodeId, onRight: bool, high: High, rs: seq<SepRecord>)
  {
    && WellFormed(c) && !c.Remove? && !c.Abort?
    && NotAbove(high, HighOf(c)) && (c.Base? || HighOf(c) == high)
    && (if onRight then lowId !in LowIds(c) && LowOf(c).LowAt? else lowId == LowIdOf(c))
    && (LowOf(c).LowAt? ==> BelowHigh(LowOf(c).key, high))
    && AscendingRecords(rs) && forall i :: 0 <= i < |rs| ==> AboveLow(rs[i].item.key, LowOf(c))
  }

  ghost predicate ComparesRecords(less: (SepRecord, SepRecord) -> bool, same: (SepRecord, SepRecord) -> bool)
  {
    forall a, b :: (less(a, b) <==> RecordLess(a, b)) && (same(a, b) <==> RecordSame(a, b))
  }

  // ------------------------------------------------------------------------------------
  // One data delta
  // ------------------------------------------------------------------------------------

  function RecordOf(c: Inner): SepRecord
    requires c.Insert? || c.Delete?
  {
    SepRecord(c.item, c.Insert?)
  }

  /** The records after a delta: its record is added unless a newer one has the key. */
  function Recorded(rs: seq<SepRecord>, r: SepRecord, less: (SepRecord, SepRecord) -> bool, same: (SepRecord, SepRecord) -> bool): seq<SepRecord>
  {
    var i := LowerBoundBy(rs, r, less);
    if i < |rs| && same(rs[i], r) then rs else InsertBefore(rs, i, r)
  }

  lemma RecordedCases(rs: seq<SepRecord>, r: SepRecord, less: (SepRecord, SepRecord) -> bool, same: (SepRecord, SepRecord) -> bool)
    requires AscendingRecords(rs) && ComparesRecords(less, same)
    ensures var i := LowerBoundBy(rs, r, less);
            && (forall j :: 0 <= j < i ==> rs[j].item.key < r.item.key)
            && (forall j :: i <= j < |rs| ==> r.item.key <= rs[j].item.key)
            && (Touched(rs, r.item.key) <==> Recorded(rs, r, less, same) == rs)
            && (!Touched(rs, r.item.key) ==>
                  Recorded(rs, r, less, same) == InsertBefore(rs, i, r) && forall j :: i <= j < |rs| ==> r.item.key < rs[j].item.key)
  {
    var i := LowerBoundBy(rs, r, less);
    forall j | i <= j < |rs|
      ensures rs[i].item.key <= rs[j].item.key && r.item.key <= rs[j].item.key
    {
      if i < j { assert RecordLess(rs[i], rs[j]); }
    }
    if i < |rs| && same(rs[i], r) {
      assert Touched(rs, r.item.key);
    }
    assert |InsertBefore(rs, i, r)| == |rs| + 1;
  }

  lemma InsertBeforeTouched(rs: seq<SepRecord>, p: nat, r: SepRecord, s: Sep)
    requires p <= |rs|
    ensures Touched(InsertBefore(rs, p, r), s.key) <==> Touched(rs, s.key) || r.item.key == s.key
    ensures Inserted(InsertBefore(rs, p, r), s) <==> Inserted(rs, s) || (r.item == s && r.isInsert)
  {
    var t := InsertBefore(rs, p, r);
    assert t[p] == r;
    forall i | 0 <= i < |rs|
      ensures rs[i] == t[if i < p then i else i + 1]
    {
    }
  }

  lemma InsertAscending(rs: seq<SepRecord>, p: nat, r: SepRecord)
    requires AscendingRecords(rs) && p <= |rs|
    requires forall j :: 0 <= j < p ==> rs[j].item.key < r.item.key
    requires forall j :: p <= j < |rs| ==> r.item.key < rs[j].item.key
    ensures AscendingRecords(InsertBefore(rs, p, r))
  {
    var t := InsertBefore(rs, p, r);
    forall i, j | 0 <= i < j < |t|
      ensures RecordLess(t[i], t[j])
    {
      if i != p && j != p {
        assert RecordLess(rs[if i < p then i else i - 1], rs[if j < p then j else j - 1]);
      }
    }
  }

  lemma ReadyData(c: Inner, lowId: NodeId, onRight: bool, high: High, rs: seq<SepRecord>, less: (SepRecord, SepRecord) -> bool, same: (SepRecord, SepRecord) -> bool)
    requires Ready(c, lowId, onRight, high, rs) && (c.Insert? || c.Delete?) && ComparesRecords(less, same)
    ensures Ready(c.child, lowId, onRight, high, Recorded(rs, RecordOf(c), less, same))
  {
    DataBounds(c, lowId, onRight, high, rs);
    RecordedCases(rs, RecordOf(c), less, same);
    hide WellFormed, AscendingRecords, Touched, ComparesRecords, Recorded;
    if !Touched(rs, c.item.key) {
      var p := LowerBoundBy(rs, RecordOf(c), less);
      InsertAscending(rs, p, RecordOf(c));
      var t := InsertBefore(rs, p, RecordOf(c));
      forall i | 0 <= i < |t|
        ensures AboveLow(t[i].item.key, LowOf(c))
      {
        if i != p { assert t[i] == rs[if i < p then i else i - 1]; }
      }
    }
  }

  lemma DataBounds(c: Inner, lowId: NodeId, onRight: bool, high: High, rs: seq<SepRecord>)
    requires Ready(c, lowId, onRight, high, rs) && (c.Insert? || c.Delete?)
    ensures WellFormed(c.child) && !c.child.Remove? && !c.child.Abort? && HighOf(c.child) == high
    ensures LowOf(c) == LowOf(c.child) && LowIdOf(c) == LowIdOf(c.child) && LowIds(c) == LowIds(c.child)
    ensures InRange(c.item.key, LowOf(c), high) && StrictlyAbove(c.item.key, LowOf(c))
  {
    DataStrict(c);
    hide Located, AscendingRecords;
    if c.Delete? {
      var s :| s in Seps(c.child) && s.key == c.item.key;
      SepsInRange(c.child, s);
    }
  }

  lemma DataKeepsMeaning(c: Inner, lowId: NodeId, onRight: bool, high: High, rs: seq<SepRecord>, less: (SepRecord, SepRecord) -> bool, same: (SepRecord, SepRecord) -> bool, s: Sep)
    requires Ready(c, lowId, onRight, high, rs) && (c.Insert? || c.Delete?) && ComparesRecords(less, same)
    ensures Overridden(c, onRight, rs, s) <==> Overridden(c.child, onRight, Recorded(rs, RecordOf(c), less, same), s)
  {
    var r := RecordOf(c);
    DataHere(c, lowId, onRight, high, rs, s);
    assert AscendingRecords(rs);
    RecordedCases(rs, r, less, same);
    hide WellFormed, AscendingRecords, Touched, Inserted, ComparesRecords, Recorded, SepsFrom, Ready;
    if !Touched(rs, r.item.key) {
      InsertBeforeTouched(rs, LowerBoundBy(rs, r, less), r, s);
      InsertedTouched(rs, s);
    }
  }

  lemma DataHere(c: Inner, lowId: NodeId, onRight: bool, high: High, rs: seq<SepRecord>, s: Sep)
    requires Ready(c, lowId, onRight, high, rs) && (c.Insert? || c.Delete?)
    ensures s.key != c.item.key ==> (s in SepsFrom(c, onRight) <==> s in SepsFrom(c.child, onRight))
    ensures s.key == c.item.key ==> (s in SepsFrom(c, onRight) <==> c.Insert? && s == c.item)
  {
    DataBounds(c, lowId, onRight, high, rs);
    hide Ready, AscendingRecords, Located;
    if s.key == c.item.key && c.Insert? { InsertNew(c, s, lowId, onRight, high, rs); }
  }

  lemma InsertNew(c: Inner, s: Sep, lowId: NodeId, onRight: bool, high: High, rs: seq<SepRecord>)
    requires Ready(c, lowId, onRight, high, rs) && c.Insert? && s.key == c.item.key
    ensures s !in Seps(c.child)
  {
    hide Located;
  }

  // ------------------------------------------------------------------------------------
  // Cutting the records at a high key
  // ------------------------------------------------------------------------------------

  /** Going back from the end: the number of records up to the last one below the high key. */
  function BelowCount(rs: seq<SepRecord>, high: High): (n: nat)
    ensures n <= |rs|
    ensures n > 0 ==> BelowHigh(rs[n - 1].item.key, high)
    ensures forall i :: n <= i < |rs| ==> !BelowHigh(rs[i].item.key, high)
  {
    if rs == [] || BelowHigh(rs[|rs| - 1].item.key, high) then |rs| else BelowCount(rs[..|rs| - 1], high)
  }

  lemma BelowCountIs(rs: seq<SepRecord>, high: High, n: nat)
    requires n <= |rs| && (forall i :: n <= i < |rs| ==> !BelowHigh(rs[i].item.key, high))
    requires n > 0 ==> BelowHigh(rs[n - 1].item.key, high)
    ensures BelowCount(rs, high) == n
  {
  }

  lemma BelowCountSplits(rs: seq<SepRecord>, high: High)
    requires AscendingRecords(rs)
    ensures forall i :: 0 <= i < |rs| ==> (i < BelowCount(rs, high) <==> BelowHigh(rs[i].item.key, high))
  {
    var n := BelowCount(rs, high);
    forall i | 0 <= i < n
      ensures BelowHigh(rs[i].item.key, high)
    {
      if i < n - 1 { assert RecordLess(rs[i], rs[n - 1]); }
    }
  }

  lemma TouchedCut(rs: seq<SepRecord>, high: High, s: Sep)
    requires AscendingRecords(rs)
    ensures var n := BelowCount(rs, high);
            && (BelowHigh(s.key, high) ==> (Touched(rs[..n], s.key) <==> Touched(rs, s.key)) && (Inserted(rs[..n], s) <==> Inserted(rs, s)))
            && (!BelowHigh(s.key, high) ==> (Touched(rs[n..], s.key) <==> Touched(rs, s.key)) && (Inserted(rs[n..], s) <==> Inserted(rs, s)))
            && (Inserted(rs[..n], s) ==> BelowHigh(s.key, high))
  {
    var n := BelowCount(rs, high);
    hide *;
    CutFacts(rs, high);
    var a, b := rs[..n], rs[n..];
    TouchedParts(a, b, s);
    InsertedTouched(a, s);
    InsertedTouched(b, s);
    if BelowHigh(s.key, high) {
      Untouched(b, s.key);
    } else {
      Untouched(a, s.key);
    }
  }

  lemma CutFacts(rs: seq<SepRecord>, high: High)
    requires AscendingRecords(rs)
    ensures var n := BelowCount(rs, high);
            && rs == rs[..n] + rs[n..]
            && (forall i :: 0 <= i < n ==> BelowHigh(rs[..n][i].item.key, high))
            && (forall i :: 0 <= i < |rs| - n ==> !BelowHigh(rs[n..][i].item.key, high))
  {
    BelowCountSplits(rs, high);
    hide BelowCount, BelowHigh, AscendingRecords;
  }

  lemma TouchedParts(a: seq<SepRecord>, b: seq<SepRecord>, s: Sep)
    ensures Touched(a + b, s.key) <==> Touched(a, s.key) || Touched(b, s.key)
    ensures Inserted(a + b, s) <==> Inserted(a, s) || Inserted(b, s)
  {
    var c := a + b;
    assert forall i :: 0 <= i < |a| ==> c[i] == a[i];
    assert forall i :: 0 <= i < |b| ==> c[|a| + i] == b[i];
  }

  lemma Untouched(a: seq<SepRecord>, k: int)
    requires forall i :: 0 <= i < |a| ==> a[i].item.key != k
    ensures !Touched(a, k)
  {
  }

  lemma AscendingParts(rs: seq<SepRecord>, n: nat)
    requires AscendingRecords(rs) && n <= |rs|
    ensures AscendingRecords(rs[..n]) && AscendingRecords(rs[n..])
  {
  }

  lemma CutUnchanged(rs: seq<SepRecord>, high: High, r: SepRecord, less: (SepRecord, SepRecord) -> bool, same: (SepRecord, SepRecord) -> bool)
    requires AscendingRecords(rs) && ComparesRecords(less, same) && BelowHigh(r.item.key, high)
    ensures var rs' := Recorded(rs, r, less, same);
            rs'[BelowCount(rs', high)..] == rs[BelowCount(rs, high)..]
  {
    RecordedCases(rs, r, less, same);
    BelowCountSplits(rs, high);
    hide BelowCount, AscendingRecords, Touched, ComparesRecords, Recorded;
    if !Touched(rs, r.item.key) {
      var p, n := LowerBoundBy(rs, r, less), BelowCount(rs, high);
      assert n < |rs| ==> !BelowHigh(rs[n].item.key, high);
      InsertedPlaces(rs, p, r, n, high);
      BelowCountIs(InsertBefore(rs, p, r), high, n + 1);
    }
  }

  lemma InsertedPlaces(rs: seq<SepRecord>, p: nat, r: SepRecord, n: nat, high: High)
    requires p <= |rs| && n <= |rs| && BelowHigh(r.item.key, high)
    requires forall i :: 0 <= i < |rs| ==> (i < n <==> BelowHigh(rs[i].item.key, high))
    requires forall j :: 0 <= j < p ==> rs[j].item.key < r.item.key
    ensures var t := InsertBefore(rs, p, r);
            && p <= n && t[n + 1..] == rs[n..] && BelowHigh(t[n].item.key, high)
            && (forall i :: n + 1 <= i < |t| ==> !BelowHigh(t[i].item.key, high))
  {
    var t := InsertBefore(rs, p, r);
    assert p <= n by {
      if n < |rs| { assert !BelowHigh(rs[n].item.key, high); }
    }
    assert t[n + 1..] == rs[n..];
    assert t[n] == if p == n then r else rs[n - 1];
    forall i | n + 1 <= i < |t|
      ensures !BelowHigh(t[i].item.key, high)
    {
      assert t[i] == rs[i - 1];
    }
  }

  // ------------------------------------------------------------------------------------
  // The base at the bottom
  // ------------------------------------------------------------------------------------

  /** A list with exactly the separators of the range that records and chain together hold. */
  ghost predicate ListFor(l: seq<Sep>, c: Inner, onRight: bool, high: High, rs: seq<SepRecord>)
  {
    && Ascending(l)
    && (forall s :: s in l <==> InRange(s.key, LowOf(c), high) && Overridden(c, onRight, rs, s))
  }

  /** `std::lower_bound` of the high key behind the first item. */
  function CopyEnd(items: seq<Sep>, high: High): (end: nat)
    requires |items| > 0
    ensures 1 <= end <= |items|
  {
    if high.PosInf? then |items| else LowerBoundFrom(items, high.key, 1)
  }

  /** The part of a base that belongs to the result. */
  function Copied(base: Inner, onRight: bool, high: High): seq<Sep>
    requires base.Base? && |base.items| > 0
  {
    base.items[if onRight then 0 else 1..CopyEnd(base.items, high)]
  }

  lemma CopiedSeps(base: Inner, lowId: NodeId, onRight: bool, high: High, rs: seq<SepRecord>)
    requires Ready(base, lowId, onRight, high, rs) && base.Base?
    ensures |base.items| > 0 && (onRight <==> base.items[0].id != lowId)
    ensures Ascending(Copied(base, onRight, high))
    ensures forall s :: s in Copied(base, onRight, high) <==> BelowHigh(s.key, high) && s in SepsFrom(base, onRight)
    ensures forall s :: s in SepsFrom(base, onRight) ==> AboveLow(s.key, base.low)
  {
    BaseFacts(base, lowId, onRight, high, rs);
    hide *;
    CopyEndSplits(base, high);
    CopiedAscending(base, onRight, high);
    forall s
      ensures s in Copied(base, onRight, high) <==> BelowHigh(s.key, high) && s in SepsFrom(base, onRight)
      ensures s in SepsFrom(base, onRight) ==> AboveLow(s.key, base.low)
    {
      CopiedSep(base, onRight, high, s);
    }
  }

  lemma CopiedAscending(base: Inner, onRight: bool, high: High)
    requires base.Base? && |base.items| > 0
    requires forall i, j :: 1 <= i < j < |base.items| ==> base.items[i].key < base.items[j].key
    requires onRight ==> base.low.LowAt?
    requires base.low.LowAt? ==> base.items[0].key == base.low.key
    requires base.low.LowAt? ==> forall i :: 1 <= i < |base.items| ==> base.low.key < base.items[i].key
    ensures Ascending(Copied(base, onRight, high))
  {
    hide CopyEnd;
  }

  lemma CopiedSep(base: Inner, onRight: bool, high: High, s: Sep)
    requires base.Base? && |base.items| > 0 && LowIdOf(base) == base.items[0].id
    requires onRight ==> base.low.LowAt?
    requires base.low.LowAt? ==> base.items[0].key == base.low.key && BelowHigh(base.low.key, high)
    requires base.low.LowAt? ==> forall i :: 1 <= i < |base.items| ==> base.low.key < base.items[i].key
    requires forall i :: 1 <= i < |base.items| ==> (i < CopyEnd(base.items, high) <==> BelowHigh(base.items[i].key, high))
    ensures s in Copied(base, onRight, high) <==> BelowHigh(s.key, high) && s in SepsFrom(base, onRight)
    ensures s in SepsFrom(base, onRight) ==> AboveLow(s.key, base.low)
  {
    BaseSeps(base);
    SepsFromIs(base, onRight, s);
    hide CopyEnd, Seps, BelowHigh, LowIdOf, SepsFrom;
    var from := if onRight then 0 else 1;
    var end := CopyEnd(base.items, high);
    InSlice(base.items, from, end, s);
  }

  lemma SepsFromIs(base: Inner, onRight: bool, s: Sep)
    requires base.Base? && |base.items| > 0 && LowIdOf(base) == base.items[0].id
    requires base.low.LowAt? ==> base.items[0].key == base.low.key
    ensures s in SepsFrom(base, onRight) <==> s in Seps(base) || (onRight && base.low.LowAt? && s == base.items[0])
  {
    hide Seps;
  }

  lemma InSlice<T>(l: seq<T>, from: nat, end: nat, s: T)
    requires from <= end <= |l|
    ensures s in l[from..end] <==> exists i :: from <= i < end && l[i] == s
  {
    if s in l[from..end] {
      var i :| 0 <= i < end - from && l[from..end][i] == s;
      assert l[from + i] == s;
    }
    if i :| from <= i < end && l[i] == s {
      assert l[from..end][i - from] == s;
    }
  }

  lemma BaseFacts(base: Inner, lowId: NodeId, onRight: bool, high: High, rs: seq<SepRecord>)
    requires Ready(base, lowId, onRight, high, rs) && base.Base?
    ensures |base.items| > 0 && (onRight <==> base.items[0].id != lowId) && LowIdOf(base) == base.items[0].id
    ensures forall i, j :: 1 <= i < j < |base.items| ==> base.items[i].key < base.items[j].key
    ensures base.low.LowAt? ==> base.items[0].key == base.low.key && BelowHigh(base.low.key, high)
    ensures base.low.LowAt? ==> forall i :: 1 <= i < |base.items| ==> base.low.key < base.items[i].key
    ensures onRight ==> base.low.LowAt?
  {
  }

  lemma CopyEndSplits(base: Inner, high: High)
    requires base.Base? && |base.items| > 0
    requires forall i, j :: 1 <= i < j < |base.items| ==> base.items[i].key < base.items[j].key
    ensures forall i :: 1 <= i < |base.items| ==> (i < CopyEnd(base.items, high) <==> BelowHigh(base.items[i].key, high))
  {
  }

  lemma BaseListFor(base: Inner, lowId: NodeId, onRight: bool, high: High, rs: seq<SepRecord>)
    requires Ready(base, lowId, onRight, high, rs) && base.Base? && |base.items| > 0
    ensures ListFor(Weave(Copied(base, onRight, high), rs[..BelowCount(rs, high)]), base, onRight, high, rs)
  {
    CopiedSeps(base, lowId, onRight, high, rs);
    ReadyRecords(base, lowId, onRight, high, rs);
    hide *;
    var copied, cut := Copied(base, onRight, high), rs[..BelowCount(rs, high)];
    AscendingParts(rs, BelowCount(rs, high));
    WeaveAscending(copied, cut);
    forall s
      ensures s in Weave(copied, cut) <==> InRange(s.key, LowOf(base), high) && Overridden(base, onRight, rs, s)
    {
      WeaveContents(copied, cut, s);
      TouchedCut(rs, high, s);
      InsertedTouched(rs, s);
      TouchedAbove(rs, base.low, s.key);
      BaseOverridden(base, onRight, high, rs, s);
    }
    ListForIs(Weave(copied, cut), base, onRight, high, rs);
  }

  lemma ReadyRecords(base: Inner, lowId: NodeId, onRight: bool, high: High, rs: seq<SepRecord>)
    requires Ready(base, lowId, onRight, high, rs) && base.Base?
    ensures AscendingRecords(rs) && LowOf(base) == base.low
    ensures forall i :: 0 <= i < |rs| ==> AboveLow(rs[i].item.key, base.low)
  {
    hide AscendingRecords;
  }

  lemma TouchedAbove(rs: seq<SepRecord>, low: Low, k: int)
    requires forall i :: 0 <= i < |rs| ==> AboveLow(rs[i].item.key, low)
    ensures Touched(rs, k) ==> AboveLow(k, low)
  {
  }

  lemma BaseOverridden(base: Inner, onRight: bool, high: High, rs: seq<SepRecord>, s: Sep)
    ensures InRange(s.key, LowOf(base), high) && Overridden(base, onRight, rs, s) <==>
      && AboveLow(s.key, LowOf(base)) && BelowHigh(s.key, high)
      && if Touched(rs, s.key) then Inserted(rs, s) else s in SepsFrom(base, onRight)
  {
    hide Touched, Inserted, SepsFrom, LowOf, AboveLow, BelowHigh;
  }

  lemma ListForIs(l: seq<Sep>, c: Inner, onRight: bool, high: High, rs: seq<SepRecord>)
    ensures ListFor(l, c, onRight, high, rs) <==>
      Ascending(l) && (forall s :: s in l <==> InRange(s.key, LowOf(c), high) && Overridden(c, onRight, rs, s))
  {
    hide Ascending, InRange, LowOf, Overridden;
  }

  /** Goes back from the end of the set to the last record below the high key. */
  method FindEnd(sss: SortedSmallSet<SepRecord>, high: High) returns (endIt: nat)
    requires sss.Valid()
    ensures sss.startP <= endIt <= sss.endP && endIt == sss.startP + BelowCount(sss.Elements(), high)
  {
    var it := sss.endP - 1;
    if high.HighAt? {
      while it >= sss.startP
        invariant sss.startP - 1 <= it < sss.endP
        invariant forall i :: it < i < sss.endP ==> !BelowHigh(sss.data[i].item.key, high)
      {
        if sss.data[it].item.key < high.key {
          break;
        }
        it := it - 1;
      }
    }
    endIt := it + 1;
    BelowCountIs(sss.Elements(), high, endIt - sss.startP);
  }

  // The steps of the merge loop: what is there, and what is still to be woven, make up the goal.

  ghost predicate Weaving(out: seq<Sep>, seps: seq<Sep>, rs: seq<SepRecord>, goal: seq<Sep>)
  {
    out + Weave(seps, rs) == goal
  }

  function Put(out: seq<Sep>, r: SepRecord): seq<Sep>
  {
    if r.isInsert then out + [r.item] else out
  }

  lemma WeaveSep(out: seq<Sep>, seps: seq<Sep>, rs: seq<SepRecord>, goal: seq<Sep>)
    requires Weaving(out, seps, rs, goal) && rs != [] && seps != [] && seps[0].key < rs[0].item.key
    ensures Weaving(out + [seps[0]], seps[1..], rs, goal)
  {
    Regroup(out, [seps[0]], Weave(seps[1..], rs));
  }

  lemma WeaveRecord(out: seq<Sep>, seps: seq<Sep>, rs: seq<SepRecord>, goal: seq<Sep>)
    requires Weaving(out, seps, rs, goal) && rs != [] && (seps == [] || rs[0].item.key < seps[0].key)
    ensures Weaving(Put(out, rs[0]), seps, rs[1..], goal)
  {
    Regroup(out, InsertedBy(rs[0]), Weave(seps, rs[1..]));
  }

  lemma WeaveBoth(out: seq<Sep>, seps: seq<Sep>, rs: seq<SepRecord>, goal: seq<Sep>)
    requires Weaving(out, seps, rs, goal) && rs != [] && seps != [] && rs[0].item.key == seps[0].key
    ensures Weaving(Put(out, rs[0]), seps[1..], rs[1..], goal)
  {
    Regroup(out, InsertedBy(rs[0]), Weave(seps[1..], rs[1..]));
  }

  lemma WeaveDone(out: seq<Sep>, seps: seq<Sep>, goal: seq<Sep>)
    requires Weaving(out, seps, [], goal)
    ensures out + seps == goal
  {
  }

  /** Drains the records that are left when the base is used up. */
  method DrainRecords(sss: SortedSmallSet<SepRecord>, endIt: nat, newItems: seq<Sep>, ghost goal: seq<Sep>) returns (out: seq<Sep>)
    requires sss.Valid() && sss.startP <= endIt <= sss.endP
    requires Weaving(newItems, [], sss.data[sss.startP..endIt], goal)
    modifies sss`startP
    ensures sss.Valid() && sss.startP == endIt && out == goal
  {
    hide Weaving;
    out := newItems;
    while sss.startP != endIt
      invariant old(sss.startP) <= sss.startP <= endIt
      invariant Weaving(out, [], sss.data[sss.startP..endIt], goal)
      decreases endIt - sss.startP
    {
      ghost var left := sss.data[sss.startP..endIt];
      WeaveRecord(out, [], left, goal);
      SlicesStep(sss.data[..], sss.startP, endIt);
      assert left == sss.data[..][sss.startP..endIt] && left[1..] == sss.data[sss.startP + 1..endIt];
      var r := sss.PopFront();
      if r.isInsert {
        out := out + [r.item];
      }
    }
    assert sss.data[sss.startP..endIt] == [];
    WeaveDone(out, [], goal);
  }

  /** The merge loop: the smaller of the two front keys goes first; for equal keys the record replaces
      the item of the base. */
  method WeaveLoop(items: seq<Sep>, start: nat, copyEnd: nat, sss: SortedSmallSet<SepRecord>, endIt: nat, newItems: seq<Sep>)
    returns (out: seq<Sep>)
    requires sss.Valid() && sss.startP <= endIt <= sss.endP && start <= copyEnd <= |items|
    modifies sss`startP
    ensures sss.Valid() && sss.startP == endIt
    ensures out == newItems + Weave(items[start..copyEnd], old(sss.data[sss.startP..endIt]))
  {
    ghost var goal := newItems + Weave(items[start..copyEnd], sss.data[sss.startP..endIt]);
    assert Weaving(newItems, items[start..copyEnd], sss.data[sss.startP..endIt], goal);
    hide Weaving, Weave;
    var copyStart := start;
    out := newItems;
    while true
      invariant old(sss.startP) <= sss.startP <= endIt && copyStart <= copyEnd
      invariant Weaving(out, items[copyStart..copyEnd], sss.data[sss.startP..endIt], goal)
      decreases copyEnd - copyStart + endIt - sss.startP
    {
      var sssEnd, arrayEnd := sss.startP == endIt, copyStart == copyEnd;
      ghost var seps, left := items[copyStart..copyEnd], sss.data[sss.startP..endIt];
      if sssEnd {
        assert left == [];
        WeaveDone(out, seps, goal);
        if !arrayEnd {
          out := out + items[copyStart..copyEnd];
        }
        break;
      } else if arrayEnd {
        assert seps == [];
        out := DrainRecords(sss, endIt, out, goal);
        break;
      }
      var front := sss.GetFront();
      SlicesStep(items, copyStart, copyEnd);
      assert left[0] == front && left[1..] == sss.data[sss.startP + 1..endIt];
      if items[copyStart].key < front.item.key {
        WeaveSep(out, seps, left, goal);
        out := out + [items[copyStart]];
        copyStart := copyStart + 1;
      } else if front.item.key < items[copyStart].key {
        WeaveRecord(out, seps, left, goal);
        var r := sss.PopFront();
        if r.isInsert {
          out := out + [r.item];
        }
      } else {
        WeaveBoth(out, seps, left, goal);
        var r := sss.PopFront();
        if r.isInsert {
          out := out + [r.item];
        }
        copyStart := copyStart + 1;
      }
    }
  }

  lemma SlicesStep<T>(s: seq<T>, i: nat, j: nat)
    requires i < j <= |s|
    ensures s[i..j] != [] && s[i..j][0] == s[i] && s[i..j][1..] == s[i + 1..j]
  {
  }

  /** Weaves the records below the high key into the base and appends the result to the new node. */
  method CollectBase(base: Inner, lowKeyNodeId: NodeId, ghost onRight: bool, high: High, sss: SortedSmallSet<SepRecord>, newItems: seq<Sep>)
    returns (out: seq<Sep>)
    requires sss.Valid() && base.Base? && Ready(base, lowKeyNodeId, onRight, high, sss.Elements())
    modifies sss`startP
    ensures sss.Valid()
    ensures sss.Elements() == old(sss.Elements())[BelowCount(old(sss.Elements()), high)..]
    ensures newItems <= out && ListFor(out[|newItems|..], base, onRight, high, old(sss.Elements()))
  {
    hide Ready, ListFor, CopyEnd, BelowCount, Weave, LowerBoundFrom;
    BaseFacts(base, lowKeyNodeId, onRight, high, sss.Elements());
    BaseListFor(base, lowKeyNodeId, onRight, high, sss.Elements());
    var copyEnd := CopyEnd(base.items, high);
    var copyStart: nat := if base.items[0].id == lowKeyNodeId then 1 else 0;
    var endIt := FindEnd(sss, high);
    SliceOfSlice(sss.data[..], sss.startP, endIt, sss.endP);
    assert base.items[copyStart..copyEnd] == Copied(base, onRight, high);
    out := WeaveLoop(base.items, copyStart, copyEnd, sss, endIt, newItems);
  }

  // ------------------------------------------------------------------------------------
  // The whole chain
  // ------------------------------------------------------------------------------------

  /** Between two nodes of one chain: the rest of the chain with the records collected so far stands
      for what the whole chain stood for at the start. */
  ghost predicate Collecting(top: Inner, lowId: NodeId, onRight: bool, rs0: seq<SepRecord>, node: Inner, rs: seq<SepRecord>)
  {
    var high := HighOf(top);
    && Ready(node, lowId, onRight, high, rs) && LowOf(node) == LowOf(top)
    && rs[BelowCount(rs, high)..] == rs0[BelowCount(rs0, high)..]
    && (forall s: Sep :: InRange(s.key, LowOf(top), high) ==> (Overridden(top, onRight, rs0, s) <==> Overridden(node, onRight, rs, s)))
  }

  lemma CollectingData(top: Inner, lowId: NodeId, onRight: bool, rs0: seq<SepRecord>, c: Inner, rs: seq<SepRecord>,
      less: (SepRecord, SepRecord) -> bool, same: (SepRecord, SepRecord) -> bool)
    requires Collecting(top, lowId, onRight, rs0, c, rs) && (c.Insert? || c.Delete?) && ComparesRecords(less, same)
    ensures Collecting(top, lowId, onRight, rs0, c.child, Recorded(rs, RecordOf(c), less, same))
  {
    var high := HighOf(top);
    DataBounds(c, lowId, onRight, high, rs);
    ReadyRecordsOf(c, lowId, onRight, high, rs);
    hide Ready, Overridden, BelowCount, HighOf, LowOf, Recorded, ComparesRecords, RecordOf, AscendingRecords, InRange;
    ReadyData(c, lowId, onRight, high, rs, less, same);
    InRangeBelow(c.item.key, LowOf(c), high);
    assert RecordOf(c).item.key == c.item.key by { RecordKey(c); }
    CutUnchanged(rs, high, RecordOf(c), less, same);
    forall s: Sep | InRange(s.key, LowOf(top), high)
      ensures Overridden(top, onRight, rs0, s) <==> Overridden(c.child, onRight, Recorded(rs, RecordOf(c), less, same), s)
    {
      DataKeepsMeaning(c, lowId, onRight, high, rs, less, same, s);
    }
  }

  lemma RecordKey(c: Inner)
    requires c.Insert? || c.Delete?
    ensures RecordOf(c).item == c.item
  {
  }

  lemma InRangeBelow(k: int, low: Low, high: High)
    requires InRange(k, low, high)
    ensures BelowHigh(k, high) && AboveLow(k, low)
  {
  }

  lemma ReadyRecordsOf(c: Inner, lowId: NodeId, onRight: bool, high: High, rs: seq<SepRecord>)
    requires Ready(c, lowId, onRight, high, rs)
    ensures AscendingRecords(rs) && WellFormed(c) && !c.Remove? && !c.Abort?
  {
    hide AscendingRecords, WellFormed;
  }

  lemma ReadySplit(c: Inner, lowId: NodeId, onRight: bool, high: High, rs: seq<SepRecord>)
    requires Ready(c, lowId, onRight, high, rs) && c.Split?
    ensures Ready(c.child, lowId, onRight, high, rs) && high == HighAt(c.splitKey, c.sibling)
  {
    hide AscendingRecords;
    var items := c.child.items;
    assert WellFormed(c.child);
    assert BelowHigh(items[|items| - c.siblingCount].key, c.child.high);
  }

  lemma CollectingSplit(top: Inner, lowId: NodeId, onRight: bool, rs0: seq<SepRecord>, c: Inner, rs: seq<SepRecord>)
    requires Collecting(top, lowId, onRight, rs0, c, rs) && c.Split?
    ensures Collecting(top, lowId, onRight, rs0, c.child, rs)
  {
    ReadySplit(c, lowId, onRight, HighOf(top), rs);
    hide Ready, BelowCount, HighOf, WellFormed, Touched, Inserted;
    forall s: Sep | InRange(s.key, LowOf(top), HighOf(top))
      ensures s in SepsFrom(c, onRight) <==> s in SepsFrom(c.child, onRight)
    {
    }
  }

  /** What one collection leaves behind: the records from its high key on. */
  ghost predicate Left(high: High, rs: seq<SepRecord>, rs': seq<SepRecord>)
  {
    rs' == rs[BelowCount(rs, high)..]
  }

  lemma CollectingEnds(top: Inner, lowId: NodeId, onRight: bool, rs0: seq<SepRecord>, c: Inner, rs: seq<SepRecord>, rs': seq<SepRecord>, l: seq<Sep>)
    requires Collecting(top, lowId, onRight, rs0, c, rs) && Left(HighOf(top), rs, rs') && ListFor(l, c, onRight, HighOf(top), rs)
    ensures Left(HighOf(top), rs0, rs') && ListFor(l, top, onRight, HighOf(top), rs0)
  {
    hide Ready, Overridden, BelowCount, HighOf, Ascending;
  }

  lemma ReadyLeft(c: Inner, lowId: NodeId, onRight: bool, high: High, rs: seq<SepRecord>)
    requires Ready(c, lowId, onRight, high, rs) && c.Merge?
    ensures Ready(c.child, lowId, onRight, HighOf(c.child), rs)
  {
    hide AscendingRecords;
    MergeIds(c);
    LowBelowHigh(c.child);
  }

  lemma MergeIds(c: Inner)
    requires WellFormed(c) && c.Merge?
    ensures LowIdOf(c) == LowIdOf(c.child) && LowIdOf(c) !in LowIds(c.right)
    ensures LowIds(c) == LowIds(c.child) + LowIds(c.right)
  {
  }

  lemma {:induction false} LowBelowHigh(c: Inner)
    requires WellFormed(c)
    ensures LowOf(c).LowAt? ==> BelowHigh(LowOf(c).key, HighOf(c))
  {
    hide Located, Has;
    match c
    case Base(_, _, _) =>
    case Insert(_, _, _, child) => LowBelowHigh(child);
    case Delete(_, _, _, _, child) => LowBelowHigh(child);
    case Split(k, _, n, child) => assert StrictlyAbove(child.items[|child.items| - n].key, child.low);
    case Merge(_, _, right, child) =>
    case Remove(_, child) => LowBelowHigh(child);
    case Abort(child) => LowBelowHigh(child);
  }

  lemma ReadyRight(c: Inner, lowId: NodeId, onRight: bool, high: High, rs: seq<SepRecord>, rs': seq<SepRecord>)
    requires Ready(c, lowId, onRight, high, rs) && c.Merge? && Left(HighOf(c.child), rs, rs')
    ensures Ready(c.right, lowId, true, high, rs')
  {
    MergeIds(c);
    MergeBounds(c, lowId, onRight, high, rs);
    var n := BelowCount(rs, HighOf(c.child));
    AscendingParts(rs, n);
    hide AscendingRecords, BelowCount;
    assert forall i :: 0 <= i < |rs'| ==> rs'[i] == rs[n + i];
  }

  lemma MergeBounds(c: Inner, lowId: NodeId, onRight: bool, high: High, rs: seq<SepRecord>)
    requires Ready(c, lowId, onRight, high, rs) && c.Merge?
    ensures HighOf(c.child) == HighAt(c.mergeKey, c.deletedId) && BelowHigh(c.mergeKey, high) && HighOf(c.right) == high
    ensures LowOf(c.right) == LowAt(c.mergeKey) && AboveLow(c.mergeKey, LowOf(c)) && LowOf(c) == LowOf(c.child)
    ensures AscendingRecords(rs) && WellFormed(c)
  {
    hide AscendingRecords, Has;
  }

  lemma LeftTwice(h1: High, h2: High, rs: seq<SepRecord>, rs1: seq<SepRecord>, rs2: seq<SepRecord>)
    requires AscendingRecords(rs) && h1.HighAt? && BelowHigh(h1.key, h2)
    requires Left(h1, rs, rs1) && Left(h2, rs1, rs2)
    ensures Left(h2, rs, rs2)
  {
    hide BelowCount, AscendingRecords;
    var n := BelowCount(rs, h1);
    var k := BelowCount(rs1, h2);
    BelowCountSplits(rs, h1);
    AscendingParts(rs, n);
    BelowCountSplits(rs1, h2);
    CutPlaces(rs, h1, h2, n, k);
    BelowCountIs(rs, h2, n + k);
  }

  lemma CutPlaces(rs: seq<SepRecord>, h1: High, h2: High, n: nat, k: nat)
    requires h1.HighAt? && BelowHigh(h1.key, h2) && n + k <= |rs|
    requires forall i :: 0 <= i < |rs| ==> (i < n <==> BelowHigh(rs[i].item.key, h1))
    requires forall i :: 0 <= i < |rs| - n ==> (i < k <==> BelowHigh(rs[n..][i].item.key, h2))
    ensures rs[n..][k..] == rs[n + k..]
    ensures n + k > 0 ==> BelowHigh(rs[n + k - 1].item.key, h2)
    ensures forall i :: n + k <= i < |rs| ==> !BelowHigh(rs[i].item.key, h2)
  {
    forall i | n + k <= i < |rs|
      ensures !BelowHigh(rs[i].item.key, h2)
    {
      assert rs[n..][i - n] == rs[i];
    }
    if k > 0 { assert rs[n..][k - 1] == rs[n + k - 1]; }
  }

  lemma MergeListFor(c: Inner, lowId: NodeId, onRight: bool, high: High, rs: seq<SepRecord>, rs1: seq<SepRecord>, l1: seq<Sep>, l2: seq<Sep>)
    requires Ready(c, lowId, onRight, high, rs) && c.Merge? && Left(HighOf(c.child), rs, rs1)
    requires ListFor(l1, c.child, onRight, HighOf(c.child), rs) && ListFor(l2, c.right, true, high, rs1)
    ensures ListFor(l1 + l2, c, onRight, high, rs)
  {
    MergeBounds(c, lowId, onRight, high, rs);
    hide *;
    ListForIs(l1, c.child, onRight, HighOf(c.child), rs);
    ListForIs(l2, c.right, true, high, rs1);
    var k := c.mergeKey;
    forall s
      ensures s in l1 + l2 <==> InRange(s.key, LowOf(c), high) && Overridden(c, onRight, rs, s)
      ensures s in l1 ==> s.key < k
      ensures s in l2 ==> k <= s.key
    {
      SideOf(c, onRight, high, rs, rs1, s);
    }
    AscendingSides(l1, l2, k);
    ListForIs(l1 + l2, c, onRight, high, rs);
  }

  lemma AscendingSides(a: seq<Sep>, b: seq<Sep>, k: int)
    requires Ascending(a) && Ascending(b)
    requires forall s :: s in a ==> s.key < k
    requires forall s :: s in b ==> k <= s.key
    ensures Ascending(a + b)
  {
    var c := a + b;
    forall i, j | 0 <= i < j < |c|
      ensures c[i].key < c[j].key
    {
      if i < |a| <= j { assert c[i] in a && c[j] in b; }
    }
  }

  lemma SideOf(c: Inner, onRight: bool, high: High, rs: seq<SepRecord>, rs1: seq<SepRecord>, s: Sep)
    requires WellFormed(c) && c.Merge? && AscendingRecords(rs) && Left(HighOf(c.child), rs, rs1)
    requires HighOf(c.child) == HighAt(c.mergeKey, c.deletedId) && BelowHigh(c.mergeKey, high)
    requires LowOf(c.right) == LowAt(c.mergeKey) && AboveLow(c.mergeKey, LowOf(c)) && LowOf(c) == LowOf(c.child)
    ensures InRange(s.key, LowOf(c.child), HighOf(c.child)) ==> s.key < c.mergeKey
    ensures InRange(s.key, LowOf(c.right), high) ==> c.mergeKey <= s.key
    ensures InRange(s.key, LowOf(c), high) && Overridden(c, onRight, rs, s) <==>
      || (InRange(s.key, LowOf(c.child), HighOf(c.child)) && Overridden(c.child, onRight, rs, s))
      || (InRange(s.key, LowOf(c.right), high) && Overridden(c.right, true, rs1, s))
  {
    SideSeps(c, onRight, s);
    hide WellFormed, Seps, SepsFrom, LowOf, HighOf, BelowCount, AscendingRecords, Touched, Inserted;
    TouchedCut(rs, HighOf(c.child), s);
    SideRanges(s.key, LowOf(c), HighOf(c.child), high);
  }

  lemma SideRanges(k: int, low: Low, mid: High, high: High)
    requires mid.HighAt? && BelowHigh(mid.key, high) && AboveLow(mid.key, low)
    ensures k < mid.key ==> BelowHigh(k, high)
    ensures mid.key <= k ==> AboveLow(k, low)
  {
  }

  lemma SideSeps(c: Inner, onRight: bool, s: Sep)
    requires WellFormed(c) && c.Merge?
    ensures s.key < c.mergeKey ==> (s in SepsFrom(c, onRight) <==> s in SepsFrom(c.child, onRight))
    ensures c.mergeKey <= s.key ==> (s in SepsFrom(c, onRight) <==> s in SepsFrom(c.right, true))
  {
    MergeIds(c);
    SideLows(c);
    if s in Seps(c) { MergeSides(c, s); }
    hide WellFormed, LowOf, LowIdOf;
  }

  lemma SideLows(c: Inner)
    requires WellFormed(c) && c.Merge?
    ensures LowOf(c) == LowOf(c.child) && LowOf(c.right) == LowAt(c.mergeKey) && StrictlyAbove(c.mergeKey, LowOf(c))
  {
    hide Has;
  }

  /** Walks down the chain, keeping the newest record of each key, and weaves the records into the
      base at the bottom; at a merge the left chain is collected before the right one. */
  method CollectAllSepsOnInnerRecursive(top: Inner, lowKeyNodeId: NodeId, ghost onRight: bool, sss: SortedSmallSet<SepRecord>, newItems: seq<Sep>)
    returns (out: seq<Sep>)
    requires sss.Valid() && ComparesRecords(sss.less, sss.same) && sss.endP + Depth(top) <= sss.data.Length
    requires Ready(top, lowKeyNodeId, onRight, HighOf(top), sss.Elements())
    modifies sss`startP, sss`endP, sss.data
    ensures sss.Valid() && sss.endP <= old(sss.endP) + Depth(top)
    ensures Left(HighOf(top), old(sss.Elements()), sss.Elements())
    ensures newItems <= out && ListFor(out[|newItems|..], top, onRight, HighOf(top), old(sss.Elements()))
    decreases top
  {
    hide *;
    var high := HighOf(top);
    var node := top;
    ghost var rs0 := sss.Elements();
    CollectingStarts(top, lowKeyNodeId, onRight, rs0);
    while !node.Base? && !node.Merge?
      invariant node == top || node < top
      invariant sss.Valid() && sss.endP + Depth(node) <= old(sss.endP) + Depth(top)
      invariant Collecting(top, lowKeyNodeId, onRight, rs0, node, sss.Elements())
      decreases node
    {
      CollectingReady(top, lowKeyNodeId, onRight, rs0, node, sss.Elements());
      DepthBelow(node);
      if node.Split? {
        CollectingSplit(top, lowKeyNodeId, onRight, rs0, node, sss.Elements());
      } else {
        CollectingData(top, lowKeyNodeId, onRight, rs0, node, sss.Elements(), sss.less, sss.same);
        RecordedIs(sss.Elements(), RecordOf(node), sss.less, sss.same);
        sss.Insert(RecordOf(node));
      }
      node := node.child;
    }
    ghost var rs := sss.Elements();
    CollectingReady(top, lowKeyNodeId, onRight, rs0, node, rs);
    DepthBelow(node);
    LeftIs(high, rs);
    if node.Base? {
      out := CollectBase(node, lowKeyNodeId, onRight, high, sss, newItems);
      CollectingEnds(top, lowKeyNodeId, onRight, rs0, node, rs, sss.Elements(), out[|newItems|..]);
    } else {
      ReadyLeft(node, lowKeyNodeId, onRight, high, rs);
      out := CollectAllSepsOnInnerRecursive(node.child, lowKeyNodeId, onRight, sss, newItems);
      ghost var rs1, out1 := sss.Elements(), out;
      MergeBounds(node, lowKeyNodeId, onRight, high, rs);
      ReadyRight(node, lowKeyNodeId, onRight, high, rs, rs1);
      out := CollectAllSepsOnInnerRecursive(node.right, lowKeyNodeId, true, sss, out);
      LeftTwice(HighOf(node.child), high, rs, rs1, sss.Elements());
      MergeListFor(node, lowKeyNodeId, onRight, high, rs, rs1, out1[|newItems|..], out[|out1|..]);
      Appended(newItems, out1, out);
      CollectingEnds(top, lowKeyNodeId, onRight, rs0, node, rs, sss.Elements(), out[|newItems|..]);
    }
  }

  lemma DepthBelow(c: Inner)
    ensures c.Insert? || c.Delete? ==> Depth(c) == Depth(c.child) + 1
    ensures c.Split? ==> Depth(c) == Depth(c.child)
    ensures c.Merge? ==> Depth(c) == Depth(c.child) + Depth(c.right)
  {
  }

  lemma RecordedIs(rs: seq<SepRecord>, r: SepRecord, less: (SepRecord, SepRecord) -> bool, same: (SepRecord, SepRecord) -> bool)
    ensures var i := LowerBoundBy(rs, r, less);
            Recorded(rs, r, less, same) == if i < |rs| && same(rs[i], r) then rs else InsertBefore(rs, i, r)
  {
  }

  lemma LeftIs(high: High, rs: seq<SepRecord>)
    ensures Left(high, rs, rs[BelowCount(rs, high)..])
  {
  }

  lemma CollectingStarts(top: Inner, lowId: NodeId, onRight: bool, rs: seq<SepRecord>)
    requires Ready(top, lowId, onRight, HighOf(top), rs)
    ensures Collecting(top, lowId, onRight, rs, top, rs)
  {
    hide Ready, Overridden, BelowCount;
  }

  lemma CollectingReady(top: Inner, lowId: NodeId, onRight: bool, rs0: seq<SepRecord>, node: Inner, rs: seq<SepRecord>)
    requires Collecting(top, lowId, onRight, rs0, node, rs)
    ensures Ready(node, lowId, onRight, HighOf(top), rs) && !node.Remove? && !node.Abort?
  {
    hide Overridden, WellFormed, BelowCount, HighOf, LowOf, AscendingRecords;
  }

  /** `CollectAllSepsOnInner`: an inner node with the same bounds and leftmost child, holding exactly
      the separators of the chain in order, and as many items as the count in the metadata says. */
  method CollectAllSepsOnInner(top: Inner) returns (base: Inner)
    requires WellFormed(top) && !top.Remove? && !top.Abort?
    ensures base.Base? && base.low == LowOf(top) && base.high == HighOf(top)
    ensures WellFormed(base) && Seps(base) == Seps(top) && LowIdOf(base) == LowIdOf(top)
    ensures |base.items| == ItemCount(top)
  {
    hide Ready, ListFor, WellFormed, Seps, LowIdOf;
    var sss := new SortedSmallSet<SepRecord>(Depth(top), RecordLess, RecordSame);
    assert ComparesRecords(sss.less, sss.same);
    LowBaseFormed(top);
    ReadyAtStart(top);
    var lowPair := LowBase(top).items[0];
    var items := CollectAllSepsOnInnerRecursive(top, LowIdOf(top), false, sss, [lowPair]);
    base := Base(LowOf(top), HighOf(top), items);
    SameMeaning(top, lowPair, items[1..], items);
  }

  lemma ReadyAtStart(c: Inner)
    requires WellFormed(c) && !c.Remove? && !c.Abort?
    ensures Ready(c, LowIdOf(c), false, HighOf(c), [])
  {
    LowBelowHigh(c);
    hide WellFormed;
  }

  lemma SameMeaning(c: Inner, lowPair: Sep, l: seq<Sep>, items: seq<Sep>)
    requires WellFormed(c) && ListFor(l, c, false, HighOf(c), []) && |LowBase(c).items| > 0 && lowPair == LowBase(c).items[0]
    requires |items| > 0 && items[0] == lowPair && items[1..] == l
    ensures var base := Base(LowOf(c), HighOf(c), items);
            WellFormed(base) && Seps(base) == Seps(c) && LowIdOf(base) == LowIdOf(c) && |items| == ItemCount(c)
  {
    var base := Base(LowOf(c), HighOf(c), items);
    LowBaseFormed(c);
    LowBelowHigh(c);
    SameSeps(c, l, items);
    BaseFormedFrom(base, LowBase(c));
    ItemCountExact(c);
    ItemCountExact(base);
  }

  lemma SameSeps(c: Inner, l: seq<Sep>, items: seq<Sep>)
    requires WellFormed(c) && ListFor(l, c, false, HighOf(c), []) && |items| > 0 && items[1..] == l
    ensures Behind(items, 1) == Seps(c)
    ensures forall i :: 1 <= i < |items| ==> items[i] in Seps(c) && StrictlyAbove(items[i].key, LowOf(c)) && BelowHigh(items[i].key, HighOf(c))
    ensures forall i, j :: 1 <= i < j < |items| ==> items[i].key < items[j].key
  {
    hide WellFormed, Seps, LowOf, HighOf;
    forall s
      ensures s in l <==> s in Seps(c)
      ensures s in Seps(c) ==> StrictlyAbove(s.key, LowOf(c)) && BelowHigh(s.key, HighOf(c))
    {
      if s in Seps(c) { SepsInRange(c, s); }
    }
    forall i | 1 <= i < |items|
      ensures items[i] == l[i - 1] && items[i] in l
    {
    }
    forall s | s in l
      ensures s in Behind(items, 1)
    {
      var i :| 0 <= i < |l| && l[i] == s;
      assert items[i + 1] == s;
    }
  }

  lemma BaseFormedFrom(base: Inner, was: Inner)
    requires base.Base? && was.Base? && WellFormed(was) && |base.items| > 0 && |was.items| > 0
    requires base.items[0] == was.items[0] && base.low == was.low && (base.low.LowAt? ==> BelowHigh(base.low.key, base.high))
    requires forall i :: 1 <= i < |base.items| ==> StrictlyAbove(base.items[i].key, base.low) && BelowHigh(base.items[i].key, base.high)
    requires forall i, j :: 1 <= i < j < |base.items| ==> base.items[i].key < base.items[j].key
    ensures WellFormed(base)
  {
  }
}
