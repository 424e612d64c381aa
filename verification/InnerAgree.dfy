/** When the search of an inner chain and its consolidated form agree. */
module InnerAgree {
  import opened BwTypes
  import opened InnerChain
  import opened InnerSearch
  import TreeRouting

  /** For every key the search ends at the child of the largest separator not above it. */
  ghost predicate Agrees(c: Inner)
  {
    forall k :: InPlace(c, k) ==> Routes(c, k, Choice(c, k))
  }

  /** And so it did at every stage of the chain. */
  ghost predicate AgreesThroughout(c: Inner)
  {
    Agrees(c) &&
    match c
    case Base(_, _, _) => true
    case Merge(_, _, right, child) => AgreesThroughout(child) && AgreesThroughout(right)
    case _ => AgreesThroughout(c.child)
  }

  // ------------------------------------------------------------------------------------
  // From exact neighbours to agreement
  // ------------------------------------------------------------------------------------

  lemma {:induction false} ExactRoutes(c: Inner, k: int)
    requires InPlace(c, k) && Exact(c)
    ensures Routes(c, k, Choice(c, k))
  {
    match c
    case Base(_, _, items) => BaseChoice(c, k);
    case Insert(item, next, _, child) =>
      DataInPlace(c, k);
      hide InPlace, Routes;
      if item.key <= k && BelowHigh(k, next) {
        InsertTaken(c, k);
      } else {
        ExactRoutes(child, k);
        InsertPassed(c, k, Choice(child, k));
      }
    case Delete(_, prev, next, _, child) =>
      DataInPlace(c, k);
      hide InPlace, Routes;
      if (prev.id == LowIdOf(child) || prev.key <= k) && BelowHigh(k, next) {
        DeleteTaken(c, k);
      } else {
        ExactRoutes(child, k);
        DeletePassed(c, k, Choice(child, k));
      }
    case Split(_, _, _, child) =>
      SplitInPlace(c, k);
      hide InPlace, Routes;
      ExactRoutes(child, k);
      SplitPassed(c, k, Choice(child, k));
    case Merge(mergeKey, _, right, child) =>
      MergeInPlace(c, k);
      hide InPlace, Routes;
      ExactRoutes(if mergeKey <= k then right else child, k);
      MergePassed(c, k, Choice(c, k));
    case Remove(_, _) =>
    case Abort(_) =>
  }

  lemma BaseChoice(base: Inner, k: int)
    requires InPlace(base, k) && base.Base?
    ensures Routes(base, k, Choice(base, k))
  {
    BaseOrdered(base);
    var i := UpperBoundIn(base.items, k, 1, |base.items|);
    BaseRoutes(base, k, i);
  }

  lemma {:induction false} ExactAgrees(c: Inner)
    requires WellFormed(c) && Exact(c)
    ensures AgreesThroughout(c)
  {
    hide Routes, Located, Has, SuccessorIs, PredecessorIs, InPlace;
    forall k | InPlace(c, k)
      ensures Routes(c, k, Choice(c, k))
    {
      ExactRoutes(c, k);
    }
    match c
    case Base(_, _, _) =>
    case Merge(_, _, right, child) => ExactAgrees(child); ExactAgrees(right);
    case _ => ExactAgrees(c.child);
  }

  // ------------------------------------------------------------------------------------
  // From agreement to exact neighbours
  // ------------------------------------------------------------------------------------

  /** The child for a key begins at the largest separator not above it, or with the chain. */
  lemma RoutedName(c: Inner, k: int, lows: map<NodeId, Low>)
    requires WellFormed(c) && Named(c, lows) && InPlace(c, k) && Agrees(c)
    ensures var id := Choice(c, k);
            && id in lows && (forall s :: s in Seps(c) && s.key <= k ==> lows[id].LowAt? && s.key <= lows[id].key)
            && (lows[id] == LowOf(c) || (lows[id].LowAt? && lows[id].key <= k && Has(c, lows[id].key)))
  {
    hide InPlace, Choice;
    var id := Choice(c, k);
    assert Routes(c, k, id);
    LowIdNamed(c, lows);
    hide WellFormed, Named;
    if !(id == LowIdOf(c) && forall t :: t in Seps(c) ==> k < t.key) {
      var s :| s in Seps(c) && s.id == id && s.key <= k && forall t :: t in Seps(c) && t.key <= k ==> t.key <= s.key;
      TreeRouting.SepNamed(c, lows, s);
    }
  }

  /** The facts about the child and the new key that a data delta is checked with. */
  ghost predicate Posted(c: Inner, lows: map<NodeId, Low>)
  {
    && (c.Insert? || c.Delete?) && WellFormed(c) && Named(c, lows) && WellFormed(c.child) && Named(c.child, lows)
    && Agrees(c) && Agrees(c.child)
  }

  lemma DataRange(c: Inner, k: int)
    requires WellFormed(c) && (c.Insert? || c.Delete?) && InRange(k, LowOf(c), HighOf(c))
    ensures InPlace(c, k) && InPlace(c.child, k)
  {
    hide Has, Located;
  }

  /** At a key where the delta is passed over, the chain and the one below it lead to the same place. */
  lemma SamePlace(c: Inner, k: int, lows: map<NodeId, Low>) returns (low: Low)
    requires Posted(c, lows) && InRange(k, LowOf(c), HighOf(c)) && Choice(c, k) == Choice(c.child, k)
    ensures forall s :: s in Seps(c) && s.key <= k ==> low.LowAt? && s.key <= low.key
    ensures forall s :: s in Seps(c.child) && s.key <= k ==> low.LowAt? && s.key <= low.key
    ensures low == LowOf(c) || (low.LowAt? && low.key <= k && Has(c, low.key) && Has(c.child, low.key))
  {
    hide *;
    PostedParts(c, lows);
    DataRange(c, k);
    RoutedName(c, k, lows);
    RoutedName(c.child, k, lows);
    DataRangeLow(c);
    low := lows[Choice(c, k)];
  }

  lemma PostedParts(c: Inner, lows: map<NodeId, Low>)
    requires Posted(c, lows)
    ensures (c.Insert? || c.Delete?) && WellFormed(c) && Named(c, lows) && WellFormed(c.child) && Named(c.child, lows)
    ensures Agrees(c) && Agrees(c.child)
  {
    hide Agrees, WellFormed, Named;
  }

  lemma DataRangeLow(c: Inner)
    requires WellFormed(c) && (c.Insert? || c.Delete?)
    ensures LowOf(c) == LowOf(c.child) && HighOf(c) == HighOf(c.child) && StrictlyAbove(c.item.key, LowOf(c)) && BelowHigh(c.item.key, HighOf(c))
  {
    DataStrict(c);
    if c.Delete? {
      var s :| s in Seps(c.child) && s.key == c.item.key;
      SepsInRange(c.child, s);
    }
  }

  /** At a key where the delta answers, its answer is the child for the key. */
  lemma AnswerPlace(c: Inner, k: int, lows: map<NodeId, Low>)
    requires Posted(c, lows) && InRange(k, LowOf(c), HighOf(c))
    ensures var id := Choice(c, k);
            && id in lows && (forall s :: s in Seps(c) && s.key <= k ==> lows[id].LowAt? && s.key <= lows[id].key)
            && (lows[id] == LowOf(c) || (lows[id].LowAt? && lows[id].key <= k && Has(c, lows[id].key)))
  {
    DataRange(c, k);
    RoutedName(c, k, lows);
  }

  ghost predicate Within(c: Inner, s: Sep)
  {
    StrictlyAbove(s.key, LowOf(c)) && BelowHigh(s.key, HighOf(c))
  }

  lemma AllWithin(c: Inner)
    requires WellFormed(c)
    ensures forall s :: s in Seps(c) ==> Within(c, s)
  {
    forall s | s in Seps(c)
      ensures Within(c, s)
    {
      SepsInRange(c, s);
    }
  }

  lemma InsertSuccessor(c: Inner, lows: map<NodeId, Low>)
    requires Posted(c, lows) && c.Insert?
    ensures SuccessorIs(c.child, c.item.key, c.next)
  {
    InsertFacts(c, lows);
    AllWithin(c.child);
    hide WellFormed, Named, Agrees, HighOf, LowOf;
    var k0, next := c.item.key, c.next;
    forall s | s in Seps(c.child) && k0 < s.key
      ensures !BelowHigh(s.key, next)
    {
      assert s in Seps(c);
      if BelowHigh(s.key, next) {
        AnswerPlace(c, s.key, lows);
      }
    }
    assert c.item in Seps(c);
    if next.HighAt? && next.key <= k0 {
      var _ := SamePlace(c, k0, lows);
    } else if next.HighAt? && !Has(c.child, next.key) && BelowHigh(next.key, HighOf(c.child)) {
      var _ := SamePlace(c, next.key, lows);
    }
  }

  lemma InsertFacts(c: Inner, lows: map<NodeId, Low>)
    requires Posted(c, lows) && c.Insert?
    ensures Names(lows, c.item.id, LowAt(c.item.key)) && !Has(c.child, c.item.key) && Seps(c) == Seps(c.child) + {c.item}
    ensures LowOf(c) == LowOf(c.child) && HighOf(c) == HighOf(c.child) && Within(c, c.item)
    ensures forall k :: Choice(c, k) == if c.item.key <= k && BelowHigh(k, c.next) then c.item.id else Choice(c.child, k)
  {
    DataRangeLow(c);
  }

  lemma DeleteFacts(c: Inner, lows: map<NodeId, Low>)
    requires Posted(c, lows) && c.Delete?
    ensures Has(c.child, c.item.key) && LowIdOf(c) == LowIdOf(c.child) && Names(lows, LowIdOf(c.child), LowOf(c))
    ensures c.prev.id == LowIdOf(c.child) || (Names(lows, c.prev.id, LowAt(c.prev.key)) && StrictlyAbove(c.prev.key, LowOf(c)))
    ensures LowOf(c) == LowOf(c.child) && HighOf(c) == HighOf(c.child) && Within(c, c.item)
    ensures forall s :: s in Seps(c) <==> s in Seps(c.child) && s.key != c.item.key
    ensures forall k :: Choice(c, k) == if Answers(c, k) then c.prev.id else Choice(c.child, k)
  {
    DataRangeLow(c);
    LowIdNamed(c.child, lows);
  }

  predicate Answers(c: Inner, k: int)
    requires c.Delete?
  {
    (c.prev.id == LowIdOf(c.child) || c.prev.key <= k) && BelowHigh(k, c.next)
  }

  /** At the deleted key itself the delta must answer. */
  lemma DeleteAnswers(c: Inner, lows: map<NodeId, Low>)
    requires Posted(c, lows) && c.Delete?
    ensures Answers(c, c.item.key)
  {
    DeleteFacts(c, lows);
    hide WellFormed, Named, Agrees, HighOf, LowOf, LowIdOf;
    if !Answers(c, c.item.key) {
      var _ := SamePlace(c, c.item.key, lows);
    }
  }

  lemma DeletePredecessor(c: Inner, lows: map<NodeId, Low>)
    requires Posted(c, lows) && c.Delete?
    ensures PredecessorIs(c.child, c.item.key, c.prev)
  {
    DeleteFacts(c, lows);
    DeleteAnswers(c, lows);
    DataRange(c, c.item.key);
    hide WellFormed, Named, HighOf, LowOf, LowIdOf, Choice, InPlace;
    var k0, id := c.item.key, c.prev.id;
    assert Routes(c, k0, id);
    if !(id == LowIdOf(c) && forall t :: t in Seps(c) ==> k0 < t.key) {
      var s :| s in Seps(c) && s.id == id && s.key <= k0 && forall t :: t in Seps(c) && t.key <= k0 ==> t.key <= s.key;
      PredecessorNamed(c, s, lows);
    }
  }

  lemma PredecessorNamed(c: Inner, s: Sep, lows: map<NodeId, Low>)
    requires Posted(c, lows) && c.Delete? && s in Seps(c) && s.id == c.prev.id
    ensures s == c.prev && s in Seps(c.child) && c.prev.id != LowIdOf(c.child)
  {
    DeleteFacts(c, lows);
    TreeRouting.SepNamed(c.child, lows, s);
    SepsInRange(c.child, s);
  }

  lemma DeleteSuccessor(c: Inner, lows: map<NodeId, Low>)
    requires Posted(c, lows) && c.Delete?
    ensures SuccessorIs(c.child, c.item.key, c.next)
  {
    DeleteFacts(c, lows);
    DeleteAnswers(c, lows);
    AllWithin(c.child);
    hide WellFormed, Named, Agrees, HighOf, LowOf, LowIdOf;
    var k0, next := c.item.key, c.next;
    forall s | s in Seps(c.child) && k0 < s.key
      ensures !BelowHigh(s.key, next)
    {
      assert s in Seps(c);
      if BelowHigh(s.key, next) {
        AnswerPlace(c, s.key, lows);
      }
    }
    if next.HighAt? && !Has(c.child, next.key) && BelowHigh(next.key, HighOf(c.child)) {
      var _ := SamePlace(c, next.key, lows);
    }
  }

  lemma {:induction false} AgreementExact(c: Inner, lows: map<NodeId, Low>)
    requires WellFormed(c) && Named(c, lows) && AgreesThroughout(c)
    ensures Exact(c)
  {
    hide Agrees, Located, Has, SuccessorIs, PredecessorIs;
    match c
    case Base(_, _, _) =>
    case Insert(_, _, _, child) => AgreementExact(child, lows); InsertSuccessor(c, lows);
    case Delete(_, _, _, _, child) => AgreementExact(child, lows); DeleteSuccessor(c, lows); DeletePredecessor(c, lows);
    case Merge(_, _, right, child) => AgreementExact(child, lows); AgreementExact(right, lows);
    case _ => AgreementExact(c.child, lows);
  }

  /** Searching a chain agrees with its consolidated form, now and at every earlier stage of the chain,
      exactly when every data delta was posted with the neighbours its key had then. */
  lemma AgreesIffExact(c: Inner, lows: map<NodeId, Low>)
    requires WellFormed(c) && Named(c, lows)
    ensures AgreesThroughout(c) <==> Exact(c)
  {
    if Exact(c) { ExactAgrees(c); }
    if AgreesThroughout(c) { AgreementExact(c, lows); }
  }
}
