/** Weaving sorted separator records into the separators of one base node. */
module InnerMerge {
  import opened BwTypes
  import opened InnerChain

  /** What consolidation keeps of an insert or delete delta. */
  datatype SepRecord = SepRecord(item: Sep, isInsert: bool)

  predicate RecordLess(a: SepRecord, b: SepRecord)
  {
    a.item.key < b.item.key
  }

  predicate RecordSame(a: SepRecord, b: SepRecord)
  {
    a.item.key == b.item.key
  }

  ghost predicate Ascending(seps: seq<Sep>)
  {
    forall i, j :: 0 <= i < j < |seps| ==> seps[i].key < seps[j].key
  }

  ghost predicate AscendingRecords(rs: seq<SepRecord>)
  {
    forall i, j :: 0 <= i < j < |rs| ==> RecordLess(rs[i], rs[j])
  }

  /** There is a record for the key. */
  ghost predicate Touched(rs: seq<SepRecord>, k: int)
  {
    exists i :: 0 <= i < |rs| && rs[i].item.key == k
  }

  ghost predicate Inserted(rs: seq<SepRecord>, s: Sep)
  {
    exists i :: 0 <= i < |rs| && rs[i].item == s && rs[i].isInsert
  }

  function InsertedBy(r: SepRecord): seq<Sep>
  {
    if r.isInsert then [r.item] else []
  }

  /** Separators and records by key; where both have a key, the record decides. */
  function Weave(seps: seq<Sep>, rs: seq<SepRecord>): seq<Sep>
    decreases |seps| + |rs|
  {
    if rs == [] then seps
    else if seps == [] || rs[0].item.key < seps[0].key then InsertedBy(rs[0]) + Weave(seps, rs[1..])
    else if seps[0].key < rs[0].item.key then [seps[0]] + Weave(seps[1..], rs)
    else InsertedBy(rs[0]) + Weave(seps[1..], rs[1..])
  }

  lemma TouchedTail(rs: seq<SepRecord>, s: Sep)
    requires rs != []
    ensures Touched(rs, s.key) <==> rs[0].item.key == s.key || Touched(rs[1..], s.key)
    ensures Inserted(rs, s) <==> (rs[0].item == s && rs[0].isInsert) || Inserted(rs[1..], s)
  {
    var t := rs[1..];
    assert forall i :: 0 <= i < |t| ==> t[i] == rs[i + 1];
    if Touched(rs, s.key) && rs[0].item.key != s.key {
      var i :| 0 <= i < |rs| && rs[i].item.key == s.key;
      assert t[i - 1].item.key == s.key;
    }
    if Inserted(rs, s) && !(rs[0].item == s && rs[0].isInsert) {
      var i :| 0 <= i < |rs| && rs[i].item == s && rs[i].isInsert;
      assert t[i - 1].item == s;
    }
  }

  lemma AscendingTail(seps: seq<Sep>, rs: seq<SepRecord>)
    requires Ascending(seps) && AscendingRecords(rs)
    ensures seps != [] ==> Ascending(seps[1..]) && forall s :: s in seps[1..] ==> seps[0].key < s.key
    ensures rs != [] ==> AscendingRecords(rs[1..]) && forall k :: Touched(rs[1..], k) ==> rs[0].item.key < k
  {
    if rs != [] {
      var t := rs[1..];
      assert forall i :: 0 <= i < |t| ==> t[i] == rs[i + 1];
    }
  }

  lemma InSplit(seps: seq<Sep>, s: Sep)
    requires seps != []
    ensures s in seps <==> s == seps[0] || s in seps[1..]
  {
    assert seps == [seps[0]] + seps[1..];
  }

  lemma NoneBelow(seps: seq<Sep>, rs: seq<SepRecord>, k: int)
    requires Ascending(seps) && AscendingRecords(rs)
    ensures (seps == [] || k < seps[0].key) ==> forall s :: s in seps ==> k < s.key
    ensures (rs == [] || k < rs[0].item.key) ==> forall j :: Touched(rs, j) ==> k < j
  {
  }

  /** The woven list holds the inserted separators and those without a record. */
  lemma {:induction false} WeaveContents(seps: seq<Sep>, rs: seq<SepRecord>, s: Sep)
    requires Ascending(seps) && AscendingRecords(rs)
    ensures s in Weave(seps, rs) <==> Inserted(rs, s) || (s in seps && !Touched(rs, s.key))
    decreases |seps| + |rs|
  {
    hide Ascending, AscendingRecords, Touched, Inserted;
    AscendingTail(seps, rs);
    InsertedTouched(rs, s);
    if rs == [] {
      NothingTouched(s);
    } else {
      TouchedTail(rs, s);
      InsertedTouched(rs[1..], s);
      NoneBelow(seps, rs, if seps == [] || rs[0].item.key < seps[0].key then rs[0].item.key else seps[0].key);
      if seps == [] || rs[0].item.key < seps[0].key {
        WeaveContents(seps, rs[1..], s);
      } else if seps[0].key < rs[0].item.key {
        InSplit(seps, s);
        WeaveContents(seps[1..], rs, s);
      } else {
        InSplit(seps, s);
        WeaveContents(seps[1..], rs[1..], s);
      }
    }
  }

  lemma NothingTouched(s: Sep)
    ensures !Touched([], s.key) && !Inserted([], s)
  {
  }

  lemma InsertedTouched(rs: seq<SepRecord>, s: Sep)
    ensures Inserted(rs, s) ==> Touched(rs, s.key)
  {
  }

  lemma {:induction false} WeaveAscending(seps: seq<Sep>, rs: seq<SepRecord>)
    requires Ascending(seps) && AscendingRecords(rs)
    ensures Ascending(Weave(seps, rs))
    decreases |seps| + |rs|
  {
    hide Ascending, AscendingRecords, Touched, Inserted;
    AscendingTail(seps, rs);
    if rs != [] {
      if seps == [] || rs[0].item.key < seps[0].key {
        WeaveAscending(seps, rs[1..]);
        WeaveAbove(seps, rs[1..], rs[0].item.key);
        AscendingCons(rs[0], Weave(seps, rs[1..]));
      } else if seps[0].key < rs[0].item.key {
        WeaveAscending(seps[1..], rs);
        NoneBelow(seps, rs, seps[0].key);
        WeaveAbove(seps[1..], rs, seps[0].key);
        AscendingCons(SepRecord(seps[0], true), Weave(seps[1..], rs));
      } else {
        WeaveAscending(seps[1..], rs[1..]);
        WeaveAbove(seps[1..], rs[1..], rs[0].item.key);
        AscendingCons(rs[0], Weave(seps[1..], rs[1..]));
      }
    }
  }

  lemma WeaveAbove(seps: seq<Sep>, rs: seq<SepRecord>, k: int)
    requires Ascending(seps) && AscendingRecords(rs)
    requires seps != [] ==> k < seps[0].key
    requires forall j :: Touched(rs, j) ==> k < j
    ensures forall s :: s in Weave(seps, rs) ==> k < s.key
  {
    hide Weave, Touched, Inserted;
    NoneBelow(seps, rs, k);
    forall s | s in Weave(seps, rs)
      ensures k < s.key
    {
      WeaveContents(seps, rs, s);
      InsertedTouched(rs, s);
    }
  }

  lemma AscendingCons(r: SepRecord, seps: seq<Sep>)
    requires Ascending(seps) && forall s :: s in seps ==> r.item.key < s.key
    ensures Ascending(InsertedBy(r) + seps)
  {
  }
}
