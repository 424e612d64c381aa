/** Removal, splitting and joining of blind tries. */
module TrieEdits {
  import opened Keys
  import opened NodeArrays
  import opened Trie

  // ------------------------------------------------------------------------------------
  // Building nodes from parts of other tries
  // ------------------------------------------------------------------------------------

  /** Every key of `u` is a key of `t`. */
  ghost predicate Within(u: Trie, t: Trie)
  {
    forall i :: 0 <= i < Size(u) ==> Contents(u)[i] in Contents(t)
  }

  lemma {:induction false} SharesSubset(u: Trie, t: Trie, k: Key, n: nat)
    requires n <= |k| && Shares(t, k, n)
    requires Within(u, t)
    ensures Shares(u, k, n)
  {
    match u
    case Leaf(x) =>
      assert Contents(u)[0] == x;
      var i :| 0 <= i < Size(t) && Contents(t)[i] == x;
      SharesAt(t, k, n, i);
    case Node(_, l, r) =>
      assert forall i :: 0 <= i < Size(l) ==> Contents(l)[i] == Contents(u)[i];
      assert forall i :: 0 <= i < Size(r) ==> Contents(r)[i] == Contents(u)[Size(l) + i];
      SharesSubset(l, t, k, n);
      SharesSubset(r, t, k, n);
  }

  lemma {:induction false} AllBitSubset(u: Trie, t: Trie, b: nat, v: bool)
    requires AllBit(t, b, v)
    requires Within(u, t)
    ensures AllBit(u, b, v)
  {
    match u
    case Leaf(x) =>
      assert Contents(u)[0] == x;
      var i :| 0 <= i < Size(t) && Contents(t)[i] == x;
      AllBitAt(t, b, v, i);
    case Node(_, l, r) =>
      assert forall i :: 0 <= i < Size(l) ==> Contents(l)[i] == Contents(u)[i];
      assert forall i :: 0 <= i < Size(r) ==> Contents(r)[i] == Contents(u)[Size(l) + i];
      AllBitSubset(l, t, b, v);
      AllBitSubset(r, t, b, v);
  }

  lemma MakeNode(b: nat, l: Trie, r: Trie, k: Key)
    requires WellFormed(l, |k|) && WellFormed(r, |k|) && b < |k|
    requires Shares(l, k, b) && Shares(r, k, b)
    requires AllBit(l, b, false) && AllBit(r, b, true)
    ensures WellFormed(Node(b, l, r), |k|)
  {
    SharesAt(l, k, b, 0);
    SharesWeaken(l, k, First(l), b, b);
    SharesWeaken(r, k, First(l), b, b);
  }

  /** Replacing the sides of a node by tries over some of their keys keeps it well formed. */
  lemma Shrink(t: Trie, l: Trie, r: Trie, bits: nat)
    requires WellFormed(t, bits) && t.Node?
    requires WellFormed(l, bits) && WellFormed(r, bits)
    requires Within(l, t.left) && Within(r, t.right)
    ensures WellFormed(Node(t.bit, l, r), bits)
  {
    var k := First(t.left);
    SharesSubset(l, t.left, k, t.bit);
    SharesSubset(r, t.right, k, t.bit);
    AllBitSubset(l, t.left, t.bit, false);
    AllBitSubset(r, t.right, t.bit, true);
    MakeNode(t.bit, l, r, k);
  }

  // ------------------------------------------------------------------------------------
  // Removal
  // ------------------------------------------------------------------------------------

  function Remove(t: Trie, i: nat): (u: Trie)
    requires t.Node? && i < Size(t)
    ensures Size(u) == Size(t) - 1
  {
    if i < Size(t.left) then
      if t.left.Leaf? then t.right else Node(t.bit, Remove(t.left, i), t.right)
    else
      if t.right.Leaf? then t.left else Node(t.bit, t.left, Remove(t.right, i - Size(t.left)))
  }

  lemma {:induction false} RemoveCorrect(t: Trie, i: nat, bits: nat)
    requires t.Node? && i < Size(t) && WellFormed(t, bits)
    ensures WellFormed(Remove(t, i), bits)
    ensures Contents(Remove(t, i)) == RemovedAt(Contents(t), i)
  {
    RemoveContents(t, i);
    RemoveWellFormed(t, i, bits);
  }

  lemma {:induction false} RemoveContents(t: Trie, i: nat)
    requires t.Node? && i < Size(t)
    ensures Contents(Remove(t, i)) == RemovedAt(Contents(t), i)
  {
    hide RemovedAt, Contents;
    ContentsOfNode(t);
    var l, r := t.left, t.right;
    if i < Size(l) {
      RemovedLeft(Contents(l), Contents(r), i);
      if l.Node? {
        RemoveContents(l, i);
        ContentsOfNode(Node(t.bit, Remove(l, i), r));
      }
    } else {
      RemovedRight(Contents(l), Contents(r), i - Size(l));
      if r.Node? {
        RemoveContents(r, i - Size(l));
        ContentsOfNode(Node(t.bit, l, Remove(r, i - Size(l))));
      }
    }
  }

  lemma ContentsOfNode(t: Trie)
    requires t.Node?
    ensures Contents(t) == Contents(t.left) + Contents(t.right)
    ensures Size(t) == Size(t.left) + Size(t.right)
  {
  }

  lemma {:induction false} RemoveWellFormed(t: Trie, i: nat, bits: nat)
    requires t.Node? && i < Size(t) && WellFormed(t, bits)
    ensures WellFormed(Remove(t, i), bits)
  {
    hide Contents, Within;
    WithinSelf(t);
    if i < Size(t.left) {
      if t.left.Node? {
        RemoveWellFormed(t.left, i, bits);
        RemoveKeeps(t.left, i);
        Shrink(t, Remove(t.left, i), t.right, bits);
      }
    } else {
      if t.right.Node? {
        RemoveWellFormed(t.right, i - Size(t.left), bits);
        RemoveKeeps(t.right, i - Size(t.left));
        Shrink(t, t.left, Remove(t.right, i - Size(t.left)), bits);
      }
    }
  }

  lemma WithinSelf(t: Trie)
    requires t.Node?
    ensures Within(t.left, t.left) && Within(t.right, t.right)
  {
    hide Contents;
  }

  lemma RemoveKeeps(t: Trie, i: nat)
    requires t.Node? && i < Size(t)
    ensures Within(Remove(t, i), t)
  {
    hide Contents, RemovedAt;
    RemoveContents(t, i);
  }

  // ------------------------------------------------------------------------------------
  // Splitting
  // ------------------------------------------------------------------------------------

  /** The trie of the first `n` keys. */
  function Take(t: Trie, n: nat): (u: Trie)
    requires 1 <= n <= Size(t)
    ensures Size(u) == n
  {
    if n == Size(t) then t
    else if n <= Size(t.left) then Take(t.left, n)
    else Node(t.bit, t.left, Take(t.right, n - Size(t.left)))
  }

  /** The trie of the keys from position `n` on. */
  function Drop(t: Trie, n: nat): (u: Trie)
    requires n < Size(t)
    ensures Size(u) == Size(t) - n
  {
    if n == 0 then t
    else if Size(t.left) <= n then Drop(t.right, n - Size(t.left))
    else Node(t.bit, Drop(t.left, n), t.right)
  }

  lemma {:induction false} TakeCorrect(t: Trie, n: nat, bits: nat)
    requires 1 <= n <= Size(t) && WellFormed(t, bits)
    ensures WellFormed(Take(t, n), bits)
    ensures Contents(Take(t, n)) == Contents(t)[..n]
  {
    hide Contents;
    TakeContents(t, n);
    if n < Size(t) {
      if n <= Size(t.left) {
        TakeCorrect(t.left, n, bits);
      } else {
        TakeCorrect(t.right, n - Size(t.left), bits);
        TakeRight(t, n - Size(t.left), bits);
      }
    }
  }

  lemma {:induction false} TakeContents(t: Trie, n: nat)
    requires 1 <= n <= Size(t)
    ensures Contents(Take(t, n)) == Contents(t)[..n]
  {
    if n < Size(t) {
      SliceOfSum(Contents(t.left), Contents(t.right), n);
      if n <= Size(t.left) { TakeContents(t.left, n); } else { TakeContents(t.right, n - Size(t.left)); }
    }
  }

  lemma TakeRight(t: Trie, m: nat, bits: nat)
    requires t.Node? && 1 <= m < Size(t.right) && WellFormed(t, bits)
    requires WellFormed(Take(t.right, m), bits) && Contents(Take(t.right, m)) == Contents(t.right)[..m]
    ensures WellFormed(Take(t, Size(t.left) + m), bits)
  {
    hide Contents;
    Shrink(t, t.left, Take(t.right, m), bits);
  }

  lemma {:induction false} DropCorrect(t: Trie, n: nat, bits: nat)
    requires n < Size(t) && WellFormed(t, bits)
    ensures WellFormed(Drop(t, n), bits)
    ensures Contents(Drop(t, n)) == Contents(t)[n..]
  {
    hide Contents;
    DropContents(t, n);
    if n > 0 {
      if Size(t.left) <= n {
        DropCorrect(t.right, n - Size(t.left), bits);
      } else {
        DropCorrect(t.left, n, bits);
        DropLeft(t, n, bits);
      }
    }
  }

  lemma {:induction false} DropContents(t: Trie, n: nat)
    requires n < Size(t)
    ensures Contents(Drop(t, n)) == Contents(t)[n..]
  {
    if n > 0 {
      SliceOfSum(Contents(t.left), Contents(t.right), n);
      if Size(t.left) <= n { DropContents(t.right, n - Size(t.left)); } else { DropContents(t.left, n); }
    }
  }

  lemma DropLeft(t: Trie, n: nat, bits: nat)
    requires t.Node? && 0 < n < Size(t.left) && WellFormed(t, bits)
    requires WellFormed(Drop(t.left, n), bits) && Contents(Drop(t.left, n)) == Contents(t.left)[n..]
    ensures WellFormed(Drop(t, n), bits)
  {
    hide Contents;
    Shrink(t, Drop(t.left, n), t.right, bits);
  }

  lemma SliceOfSum(a: seq<Key>, b: seq<Key>, n: nat)
    requires n <= |a| + |b|
    ensures (a + b)[..n] == if n <= |a| then a[..n] else a + b[..n - |a|]
    ensures (a + b)[n..] == if |a| <= n then b[n - |a|..] else a[n..] + b
  {
  }

  // ------------------------------------------------------------------------------------
  // Joining
  // ------------------------------------------------------------------------------------

  /** All keys of `t` precede all keys of `u`, and the boundary between them is bit `d`. */
  predicate Adjacent(t: Trie, u: Trie, d: nat, bits: nat)
  {
    && WellFormed(t, bits) && WellFormed(u, bits) && d < bits
    && |Last(t)| == |First(u)| == bits
    && (forall i :: 0 <= i < d ==> Last(t)[i] == First(u)[i])
    && !Last(t)[d] && First(u)[d]
  }

  predicate BoundaryNext(t: Trie, u: Trie, d: nat)
  {
    (t.Leaf? || d < t.bit) && (u.Leaf? || d < u.bit)
  }

  /** The next branch of the joined trie comes from the right spine of the smaller trie. */
  predicate SmallNext(t: Trie, u: Trie)
  {
    u.Leaf? || (t.Node? && t.bit < u.bit)
  }

  function Join(t: Trie, u: Trie, d: nat): (v: Trie)
    ensures Size(v) == Size(t) + Size(u)
    decreases Size(t) + Size(u)
  {
    if BoundaryNext(t, u, d) then Node(d, t, u)
    else if SmallNext(t, u) then Node(t.bit, t.left, Join(t.right, u, d))
    else Node(u.bit, Join(t, u.left, d), u.right)
  }

  lemma JoinUnfolds(t: Trie, u: Trie, d: nat)
    ensures BoundaryNext(t, u, d) ==> Join(t, u, d) == Node(d, t, u)
    ensures !BoundaryNext(t, u, d) && SmallNext(t, u) ==> t.Node? && Join(t, u, d) == Node(t.bit, t.left, Join(t.right, u, d))
    ensures !BoundaryNext(t, u, d) && !SmallNext(t, u) ==> u.Node? && Join(t, u, d) == Node(u.bit, Join(t, u.left, d), u.right)
  {
  }

  lemma LastBit(t: Trie, bits: nat)
    requires WellFormed(t, bits) && t.Node?
    ensures |Last(t)| == bits && Last(t)[t.bit] && Last(t) == Last(t.right)
  {
    WellFormedUniform(t, bits);
    AllBitAt(t.right, t.bit, true, Size(t.right) - 1);
  }

  lemma FirstBit(t: Trie, bits: nat)
    requires WellFormed(t, bits) && t.Node?
    ensures |First(t)| == bits && !First(t)[t.bit] && First(t) == First(t.left)
  {
    WellFormedUniform(t, bits);
    AllBitAt(t.left, t.bit, false, 0);
  }

  lemma SmallStep(t: Trie, u: Trie, d: nat, bits: nat)
    requires Adjacent(t, u, d, bits) && !BoundaryNext(t, u, d) && SmallNext(t, u)
    ensures t.bit < d && Adjacent(t.right, u, d, bits)
    ensures u.Node? ==> t.bit < u.bit
  {
    LastBit(t, bits);
  }

  lemma LargeStep(t: Trie, u: Trie, d: nat, bits: nat)
    requires Adjacent(t, u, d, bits) && !BoundaryNext(t, u, d) && !SmallNext(t, u)
    ensures u.bit < d && Adjacent(t, u.left, d, bits)
    ensures t.Node? ==> u.bit < t.bit
  {
    FirstBit(u, bits);
    if t.Node? { LastBit(t, bits); }
  }

  /** A trie whose root branches above bit `b` (or not at all) agrees on all bits up to `b`. */
  lemma AgreesThrough(t: Trie, k: Key, b: nat, v: bool, i: nat)
    requires WellFormed(t, |k|) && b < |k| && (t.Node? ==> b < t.bit) && i < Size(t)
    requires |Contents(t)[i]| == |k| && (forall j :: 0 <= j < b ==> Contents(t)[i][j] == k[j])
    requires Contents(t)[i][b] == v
    ensures Shares(t, k, b) && AllBit(t, b, v)
  {
    if t.Node? {
      var f := First(t.left);
      WellFormedUniform(t, |k|);
      SharesWeaken(t, f, f, t.bit, b + 1);
      SharesAt(t, f, b + 1, i);
      SharesWeaken(t, f, k, b + 1, b);
      SharesAllBit(t, f, b + 1, b);
    }
  }

  lemma {:induction false} SharesAllBit(t: Trie, k: Key, n: nat, b: nat)
    requires b < n <= |k| && Shares(t, k, n)
    ensures AllBit(t, b, k[b])
  {
    match t
    case Leaf(_) =>
    case Node(_, l, r) =>
      SharesAllBit(l, k, n, b);
      SharesAllBit(r, k, n, b);
  }

  lemma {:induction false} JoinShares(t: Trie, u: Trie, d: nat, k: Key, n: nat)
    requires n <= |k| && Shares(t, k, n) && Shares(u, k, n)
    ensures Shares(Join(t, u, d), k, n)
    decreases Size(t) + Size(u)
  {
    if BoundaryNext(t, u, d) {
    } else if SmallNext(t, u) {
      JoinShares(t.right, u, d, k, n);
    } else {
      JoinShares(t, u.left, d, k, n);
    }
  }

  lemma {:induction false} JoinAllBit(t: Trie, u: Trie, d: nat, b: nat, v: bool)
    requires AllBit(t, b, v) && AllBit(u, b, v)
    ensures AllBit(Join(t, u, d), b, v)
    decreases Size(t) + Size(u)
  {
    if BoundaryNext(t, u, d) {
    } else if SmallNext(t, u) {
      JoinAllBit(t.right, u, d, b, v);
    } else {
      JoinAllBit(t, u.left, d, b, v);
    }
  }

  lemma {:induction false} JoinContents(t: Trie, u: Trie, d: nat)
    ensures Contents(Join(t, u, d)) == Contents(t) + Contents(u)
    decreases Size(t) + Size(u)
  {
    hide *;
    JoinUnfolds(t, u, d);
    ContentsOfNode(Join(t, u, d));
    if BoundaryNext(t, u, d) {
    } else if SmallNext(t, u) {
      ContentsOfNode(t);
      JoinContents(t.right, u, d);
      assert Contents(t.left) + (Contents(t.right) + Contents(u)) == Contents(t) + Contents(u);
    } else {
      ContentsOfNode(u);
      JoinContents(t, u.left, d);
      assert Contents(t) + Contents(u.left) + Contents(u.right) == Contents(t) + Contents(u);
    }
  }

  lemma {:induction false} JoinWellFormed(t: Trie, u: Trie, d: nat, bits: nat)
    requires Adjacent(t, u, d, bits)
    ensures WellFormed(Join(t, u, d), bits)
    decreases Size(t) + Size(u)
  {
    if BoundaryNext(t, u, d) {
      AgreesThrough(t, Last(t), d, false, Size(t) - 1);
      AgreesThrough(u, Last(t), d, true, 0);
      MakeNode(d, t, u, Last(t));
    } else if SmallNext(t, u) {
      SmallStep(t, u, d, bits);
      JoinWellFormed(t.right, u, d, bits);
      JoinSmall(t, u, d, bits);
    } else {
      LargeStep(t, u, d, bits);
      JoinWellFormed(t, u.left, d, bits);
      JoinLarge(t, u, d, bits);
    }
  }

  lemma JoinSmall(t: Trie, u: Trie, d: nat, bits: nat)
    requires Adjacent(t, u, d, bits) && t.Node? && t.bit < d && (u.Node? ==> t.bit < u.bit)
    requires WellFormed(Join(t.right, u, d), bits)
    ensures WellFormed(Node(t.bit, t.left, Join(t.right, u, d)), bits)
  {
    var b, k := t.bit, First(t.left);
    LastBit(t, bits);
    SharesAt(t.right, k, b, Size(t.right) - 1);
    AgreesThrough(u, k, b, true, 0);
    JoinShares(t.right, u, d, k, b);
    JoinAllBit(t.right, u, d, b, true);
    MakeNode(b, t.left, Join(t.right, u, d), k);
  }

  lemma JoinLarge(t: Trie, u: Trie, d: nat, bits: nat)
    requires Adjacent(t, u, d, bits) && u.Node? && u.bit < d && (t.Node? ==> u.bit < t.bit)
    requires WellFormed(Join(t, u.left, d), bits)
    ensures WellFormed(Node(u.bit, Join(t, u.left, d), u.right), bits)
  {
    var b, k := u.bit, First(u.left);
    FirstBit(u, bits);
    AgreesThrough(t, k, b, false, Size(t) - 1);
    JoinShares(t, u.left, d, k, b);
    JoinAllBit(t, u.left, d, b, false);
    MakeNode(b, Join(t, u.left, d), u.right, k);
  }
}
