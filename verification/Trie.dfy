/** The blind trie that every node encoding stands for.

A node keeps strictly sorted keys of one length.  Their trie branches, at each internal
point, on the first bit in which the keys below differ.  `WellFormed` tries are canonical:
`Canonical` shows that the key sequence determines the trie. */
module Trie {
  import opened Keys
  import opened NodeArrays

  datatype Trie = Leaf(key: Key) | Node(bit: nat, left: Trie, right: Trie)

  /** The keys in order. */
  function Contents(t: Trie): (ks: seq<Key>)
    ensures |ks| >= 1
    ensures t.Node? ==> |ks| >= 2
  {
    match t
    case Leaf(k) => [k]
    case Node(_, l, r) => Contents(l) + Contents(r)
  }

  function Size(t: Trie): (n: nat)
    ensures n == |Contents(t)|
  {
    match t
    case Leaf(_) => 1
    case Node(_, l, r) => Size(l) + Size(r)
  }

  /** Some stored key; the leftmost one. */
  function First(t: Trie): (k: Key)
    ensures k == Contents(t)[0]
  {
    match t
    case Leaf(k) => k
    case Node(_, l, _) => First(l)
  }

  function Last(t: Trie): (k: Key)
    ensures k == Contents(t)[Size(t) - 1]
  {
    match t
    case Leaf(k) => k
    case Node(_, _, r) => Last(r)
  }

  /** Every stored key has the length of `k` and agrees with it on the first `n` bits. */
  predicate Shares(t: Trie, k: Key, n: nat)
    requires n <= |k|
  {
    match t
    case Leaf(key) => |key| == |k| && forall i :: 0 <= i < n ==> key[i] == k[i]
    case Node(_, l, r) => Shares(l, k, n) && Shares(r, k, n)
  }

  /** Every stored key has value `v` at bit `b`. */
  predicate AllBit(t: Trie, b: nat, v: bool)
  {
    match t
    case Leaf(key) => b < |key| && key[b] == v
    case Node(_, l, r) => AllBit(l, b, v) && AllBit(r, b, v)
  }

  predicate WellFormed(t: Trie, bits: nat)
  {
    match t
    case Leaf(key) => |key| == bits
    case Node(b, l, r) =>
      && b < bits
      && WellFormed(l, bits) && WellFormed(r, bits)
      && |First(l)| == bits
      && Shares(l, First(l), b) && Shares(r, First(l), b)
      && AllBit(l, b, false) && AllBit(r, b, true)
  }

  // ------------------------------------------------------------------------------------
  // From the structural predicates to positions
  // ------------------------------------------------------------------------------------

  lemma {:induction false} SharesAt(t: Trie, k: Key, n: nat, i: nat)
    requires n <= |k| && Shares(t, k, n) && i < Size(t)
    ensures |Contents(t)[i]| == |k|
    ensures forall j :: 0 <= j < n ==> Contents(t)[i][j] == k[j]
  {
    match t
    case Leaf(_) =>
    case Node(_, l, r) =>
      if i < Size(l) { SharesAt(l, k, n, i); } else { SharesAt(r, k, n, i - Size(l)); }
  }

  lemma {:induction false} AllBitAt(t: Trie, b: nat, v: bool, i: nat)
    requires AllBit(t, b, v) && i < Size(t)
    ensures b < |Contents(t)[i]| && Contents(t)[i][b] == v
  {
    match t
    case Leaf(_) =>
    case Node(_, l, r) =>
      if i < Size(l) { AllBitAt(l, b, v, i); } else { AllBitAt(r, b, v, i - Size(l)); }
  }

  lemma {:induction false} WellFormedUniform(t: Trie, bits: nat)
    requires WellFormed(t, bits)
    ensures Uniform(Contents(t), bits)
  {
    match t
    case Leaf(_) =>
    case Node(_, l, r) =>
      WellFormedUniform(l, bits);
      WellFormedUniform(r, bits);
  }

  lemma {:induction false} SharesWeaken(t: Trie, k: Key, k': Key, n: nat, m: nat)
    requires m <= n <= |k| == |k'| && Shares(t, k, n)
    requires forall i :: 0 <= i < m ==> k[i] == k'[i]
    ensures Shares(t, k', m)
  {
    match t
    case Leaf(_) =>
    case Node(_, l, r) =>
      SharesWeaken(l, k, k', n, m);
      SharesWeaken(r, k, k', n, m);
  }

  /** Branch bits increase towards the leaves. */
  lemma BitsIncrease(t: Trie, bits: nat)
    requires WellFormed(t, bits) && t.Node?
    ensures t.left.Node? ==> t.bit < t.left.bit
    ensures t.right.Node? ==> t.bit < t.right.bit
  {
    if t.left.Node? { BranchesBelow(t.left, bits, First(t.left), t.bit, false); }
    if t.right.Node? { BranchesBelow(t.right, bits, First(t.left), t.bit, true); }
  }

  lemma BranchesBelow(u: Trie, bits: nat, k: Key, b: nat, v: bool)
    requires WellFormed(u, bits) && u.Node? && b < |k|
    requires Shares(u, k, b) && AllBit(u, b, v)
    ensures b < u.bit
  {
    SharesAt(u.left, k, b, 0);
    SharesAt(u.right, k, b, 0);
    AllBitAt(u.left, b, v, 0);
    AllBitAt(u.right, b, v, 0);
    AllBitAt(u.left, u.bit, false, 0);
    AllBitAt(u.right, u.bit, true, 0);
  }

  /** Contents are strictly sorted, and neighbours differ first at the branch bit between them. */
  lemma {:induction false} Ordered(t: Trie, bits: nat, i: nat, j: nat)
    requires WellFormed(t, bits) && i < j < Size(t)
    ensures |Contents(t)[i]| == |Contents(t)[j]| == bits
    ensures Less(Contents(t)[i], Contents(t)[j])
    ensures t.Node? && i < Size(t.left) <= j ==> Diff(Contents(t)[i], Contents(t)[j]) == t.bit
  {
    match t
    case Node(b, l, r) =>
      if j < Size(l) {
        Ordered(l, bits, i, j);
      } else if Size(l) <= i {
        Ordered(r, bits, i - Size(l), j - Size(l));
      } else {
        SharesAt(l, First(l), b, i);
        SharesAt(r, First(l), b, j - Size(l));
        AllBitAt(l, b, false, i);
        AllBitAt(r, b, true, j - Size(l));
        DiffUnique(Contents(t)[i], Contents(t)[j], b);
      }
  }

  lemma Sorted(t: Trie, bits: nat)
    requires WellFormed(t, bits)
    ensures Uniform(Contents(t), bits) && StrictlySorted(Contents(t), bits)
  {
    WellFormedUniform(t, bits);
    forall i, j | 0 <= i < j < Size(t)
      ensures Less(Contents(t)[i], Contents(t)[j])
    {
      Ordered(t, bits, i, j);
    }
  }

  /** The key sequence determines the trie. */
  lemma {:induction false} Canonical(t: Trie, u: Trie, bits: nat)
    requires WellFormed(t, bits) && WellFormed(u, bits)
    requires Contents(t) == Contents(u)
    ensures t == u
  {
    if t.Node? && u.Node? {
      var n := Size(t);
      Ordered(t, bits, 0, n - 1);
      Ordered(u, bits, 0, n - 1);
      SameSplit(t, u, bits);
      assert Contents(t.left) == Contents(t)[..Size(t.left)] == Contents(u.left);
      assert Contents(t.right) == Contents(t)[Size(t.left)..] == Contents(u.right);
      Canonical(t.left, u.left, bits);
      Canonical(t.right, u.right, bits);
    }
  }

  lemma SameSplit(t: Trie, u: Trie, bits: nat)
    requires WellFormed(t, bits) && WellFormed(u, bits) && t.Node? && u.Node?
    requires Contents(t) == Contents(u) && t.bit == u.bit
    ensures Size(t.left) == Size(u.left)
  {
    if Size(t.left) < Size(u.left) {
      assert Contents(t)[Size(t.left)] == Contents(u)[Size(t.left)];
      AllBitAt(t.right, t.bit, true, 0);
      AllBitAt(u.left, u.bit, false, Size(t.left));
    } else if Size(u.left) < Size(t.left) {
      assert Contents(t)[Size(u.left)] == Contents(u)[Size(u.left)];
      AllBitAt(u.right, u.bit, true, 0);
      AllBitAt(t.left, t.bit, false, Size(u.left));
    }
  }

  // ------------------------------------------------------------------------------------
  // Search
  // ------------------------------------------------------------------------------------

  /** The first stage: a descent that looks only at the branch bits of the query. */
  function Descend(t: Trie, q: Key): (i: nat)
    requires WellFormed(t, |q|)
    ensures i < Size(t)
  {
    match t
    case Leaf(_) => 0
    case Node(b, l, r) => if q[b] then Size(l) + Descend(r, q) else Descend(l, q)
  }

  /** The blind descent ends on a key that shares the longest prefix with the query. */
  lemma {:induction false} DescendMaximal(t: Trie, q: Key, i: nat)
    requires WellFormed(t, |q|) && i < Size(t)
    ensures |Contents(t)[i]| == |Contents(t)[Descend(t, q)]| == |q|
    ensures Diff(q, Contents(t)[i]) <= Diff(q, Contents(t)[Descend(t, q)])
  {
    WellFormedUniform(t, |q|);
    match t
    case Leaf(_) =>
    case Node(b, l, r) =>
      if q[b] {
        if Size(l) <= i { DescendMaximal(r, q, i - Size(l)); } else { OtherSide(t, q, i); }
      } else {
        if i < Size(l) { DescendMaximal(l, q, i); } else { OtherSide(t, q, i); }
      }
  }

  lemma OtherSide(t: Trie, q: Key, i: nat)
    requires WellFormed(t, |q|) && t.Node? && i < Size(t)
    requires i < Size(t.left) <==> q[t.bit]
    ensures |Contents(t)[i]| == |Contents(t)[Descend(t, q)]| == |q|
    ensures Diff(q, Contents(t)[i]) <= Diff(q, Contents(t)[Descend(t, q)])
  {
    var p := Descend(t, q);
    var l, r, b := t.left, t.right, t.bit;
    if q[b] {
      SharesAt(l, First(l), b, i);
      SharesAt(r, First(l), b, p - Size(l));
      AllBitAt(l, b, false, i);
    } else {
      SharesAt(r, First(l), b, i - Size(l));
      SharesAt(l, First(l), b, p);
      AllBitAt(r, b, true, i - Size(l));
    }
  }

  /** A key is stored exactly when the descent ends on it. */
  lemma DescendHits(t: Trie, q: Key)
    requires WellFormed(t, |q|)
    ensures q in Contents(t) <==> Contents(t)[Descend(t, q)] == q
  {
    if q in Contents(t) {
      var i :| 0 <= i < Size(t) && Contents(t)[i] == q;
      DescendMaximal(t, q, i);
    }
  }

  /** What one comparison with the key reached by the descent leaves to the second stage:
      `d` is the first differing bit and no stored key shares more with the query. */
  ghost predicate Probed(t: Trie, q: Key, d: nat)
  {
    && WellFormed(t, |q|)
    && d < |q|
    && Reaches(t, q, d)
    && AllBitOrShorter(t, q, d)
  }

  /** Some key agrees with the query below bit `d`. */
  ghost predicate Reaches(t: Trie, q: Key, d: nat)
    requires d <= |q|
  {
    match t
    case Leaf(k) => |k| == |q| && forall i :: 0 <= i < d ==> k[i] == q[i]
    case Node(_, l, r) => Reaches(l, q, d) || Reaches(r, q, d)
  }

  /** No key agrees with the query up to and including bit `d`. */
  ghost predicate AllBitOrShorter(t: Trie, q: Key, d: nat)
    requires d < |q|
  {
    match t
    case Leaf(k) => |k| == |q| && Diff(q, k) <= d
    case Node(_, l, r) => AllBitOrShorter(l, q, d) && AllBitOrShorter(r, q, d)
  }

  lemma {:induction false} ReachesFrom(t: Trie, q: Key, d: nat, i: nat)
    requires d <= |q| && i < Size(t) && |Contents(t)[i]| == |q| && d <= Diff(q, Contents(t)[i])
    ensures Reaches(t, q, d)
  {
    match t
    case Leaf(_) =>
    case Node(_, l, r) =>
      if i < Size(l) { ReachesFrom(l, q, d, i); } else { ReachesFrom(r, q, d, i - Size(l)); }
  }

  lemma {:induction false} ShorterFrom(t: Trie, q: Key, d: nat)
    requires d < |q|
    requires forall i :: 0 <= i < Size(t) ==> |Contents(t)[i]| == |q| && Diff(q, Contents(t)[i]) <= d
    ensures AllBitOrShorter(t, q, d)
  {
    match t
    case Leaf(k) => assert Contents(t)[0] == k;
    case Node(_, l, r) =>
      assert forall i :: 0 <= i < Size(l) ==> Contents(l)[i] == Contents(t)[i];
      assert forall i :: 0 <= i < Size(r) ==> Contents(r)[i] == Contents(t)[Size(l) + i];
      ShorterFrom(l, q, d);
      ShorterFrom(r, q, d);
  }

  /** The comparison made at the end of the descent probes the trie. */
  lemma DescendProbes(t: Trie, q: Key)
    requires WellFormed(t, |q|) && Contents(t)[Descend(t, q)] != q
    ensures |Contents(t)[Descend(t, q)]| == |q|
    ensures Probed(t, q, Diff(q, Contents(t)[Descend(t, q)]))
  {
    var p := Descend(t, q);
    DescendMaximal(t, q, p);
    var d := Diff(q, Contents(t)[p]);
    forall i | 0 <= i < Size(t)
      ensures |Contents(t)[i]| == |q| && Diff(q, Contents(t)[i]) <= d
    {
      DescendMaximal(t, q, i);
    }
    ReachesFrom(t, q, d, p);
    ShorterFrom(t, q, d);
  }

  // ------------------------------------------------------------------------------------
  // The second stage and insertion
  // ------------------------------------------------------------------------------------

  /** The branch lies wholly above or below the query: none of its branch bits is below `d`. */
  predicate Whole(t: Trie, d: nat)
  {
    t.Leaf? || d <= t.bit
  }

  /** Towards the query. */
  function Side(t: Trie, q: Key): (u: Trie)
    requires t.Node? && t.bit < |q|
    ensures u < t
  {
    if q[t.bit] then t.right else t.left
  }

  lemma {:induction false} NotReached(t: Trie, q: Key, d: nat, b: nat, v: bool)
    requires b < d <= |q| && AllBit(t, b, v) && q[b] != v
    ensures !Reaches(t, q, d)
  {
    match t
    case Leaf(_) =>
    case Node(_, l, r) =>
      NotReached(l, q, d, b, v);
      NotReached(r, q, d, b, v);
  }

  lemma ProbedSide(t: Trie, q: Key, d: nat)
    requires Probed(t, q, d) && !Whole(t, d)
    ensures Probed(Side(t, q), q, d)
  {
    if q[t.bit] {
      NotReached(t.left, q, d, t.bit, false);
    } else {
      NotReached(t.right, q, d, t.bit, true);
    }
  }

  lemma {:induction false} ReachesAgrees(t: Trie, q: Key, d: nat, k: Key, n: nat) returns (i: nat)
    requires d <= |q| == |k| && n <= d && Reaches(t, q, d) && Shares(t, k, n)
    ensures i < Size(t) && |Contents(t)[i]| == |q|
    ensures forall j :: 0 <= j < d ==> Contents(t)[i][j] == q[j]
    ensures forall j :: 0 <= j < n ==> k[j] == q[j]
  {
    match t
    case Leaf(_) => i := 0;
    case Node(_, l, r) =>
      if Reaches(l, q, d) {
        i := ReachesAgrees(l, q, d, k, n);
      } else {
        i := ReachesAgrees(r, q, d, k, n);
        i := Size(l) + i;
      }
  }

  /** In a whole branch every key first differs from the query at bit `d`, all in the same way. */
  lemma WholeBranch(t: Trie, q: Key, d: nat)
    requires Probed(t, q, d) && Whole(t, d)
    ensures Shares(t, q, d) && AllBit(t, d, !q[d])
    ensures t.Node? ==> d < t.bit
  {
    if t.Node? {
      var l, r, b := t.left, t.right, t.bit;
      SharesWeaken(l, First(l), First(l), b, d);
      SharesWeaken(r, First(l), First(l), b, d);
      var _ := ReachesAgrees(t, q, d, First(l), d);
      SharesWeaken(t, First(l), q, d, d);
      ShorterBit(t, q, d);
      if d == b {
        AllBitAt(l, d, !q[d], 0);
        AllBitAt(r, d, !q[d], 0);
        AllBitAt(l, d, false, 0);
        AllBitAt(r, d, true, 0);
      }
    } else {
      ShorterBit(t, q, d);
    }
  }

  lemma {:induction false} ShorterBit(t: Trie, q: Key, d: nat)
    requires d < |q| && Shares(t, q, d) && AllBitOrShorter(t, q, d)
    ensures AllBit(t, d, !q[d])
  {
    match t
    case Leaf(k) =>
    case Node(_, l, r) =>
      ShorterBit(l, q, d);
      ShorterBit(r, q, d);
  }

  /** The number of keys below the query. */
  function Rank(t: Trie, q: Key, d: nat): (r: nat)
    requires d < |q|
    ensures r <= Size(t)
  {
    if Whole(t, d) then
      if q[d] then Size(t) else 0
    else if q[t.bit] then Size(t.left) + Rank(t.right, q, d)
    else Rank(t.left, q, d)
  }

  lemma {:induction false} RankSeparates(t: Trie, q: Key, d: nat, i: nat)
    requires Probed(t, q, d) && i < Size(t)
    ensures |Contents(t)[i]| == |q|
    ensures i < Rank(t, q, d) ==> Less(Contents(t)[i], q)
    ensures i >= Rank(t, q, d) ==> Less(q, Contents(t)[i])
  {
    if Whole(t, d) {
      WholeBranch(t, q, d);
      SharesAt(t, q, d, i);
      AllBitAt(t, d, !q[d], i);
      DiffUnique(Contents(t)[i], q, d);
      DiffUnique(q, Contents(t)[i], d);
    } else {
      ProbedSide(t, q, d);
      var n := Size(t.left);
      if q[t.bit] && n <= i {
        RankSeparates(t.right, q, d, i - n);
      } else if !q[t.bit] && i < n {
        RankSeparates(t.left, q, d, i);
      } else {
        AwayFromQuery(t, q, d, i);
      }
    }
  }

  /** A key on the other side of a branch above `d` differs from the query at that branch. */
  lemma AwayFromQuery(t: Trie, q: Key, d: nat, i: nat)
    requires Probed(t, q, d) && !Whole(t, d) && i < Size(t)
    requires q[t.bit] <==> i < Size(t.left)
    ensures |Contents(t)[i]| == |q|
    ensures Diff(q, Contents(t)[i]) == Diff(Contents(t)[i], q) == t.bit
  {
    var l, r, b := t.left, t.right, t.bit;
    SharesWeaken(l, First(l), First(l), b, b);
    var j := ReachesAgrees(t, q, d, First(l), b);
    if q[b] {
      SharesAt(l, First(l), b, i);
      AllBitAt(l, b, false, i);
    } else {
      SharesAt(r, First(l), b, i - Size(l));
      AllBitAt(r, b, true, i - Size(l));
    }
    DiffUnique(q, Contents(t)[i], b);
    DiffUnique(Contents(t)[i], q, b);
  }

  /** `Rank` is the rank of the query among the stored keys. */
  lemma RankCorrect(t: Trie, q: Key, d: nat)
    requires Probed(t, q, d)
    ensures Uniform(Contents(t), |q|)
    ensures IsRank(Contents(t), |q|, q, Rank(t, q, d))
    ensures q !in Contents(t)
  {
    WellFormedUniform(t, |q|);
    forall i | 0 <= i < Size(t)
      ensures i < Rank(t, q, d) ==> Less(Contents(t)[i], q)
      ensures i >= Rank(t, q, d) ==> Less(q, Contents(t)[i])
    {
      RankSeparates(t, q, d, i);
    }
    forall i | 0 <= i < Rank(t, q, d)
      ensures !Less(q, Contents(t)[i])
    {
      LessTotal(q, Contents(t)[i]);
    }
  }

  function Insert(t: Trie, q: Key, d: nat): (u: Trie)
    requires d < |q|
    ensures Size(u) == Size(t) + 1
  {
    if Whole(t, d) then
      if q[d] then Node(d, t, Leaf(q)) else Node(d, Leaf(q), t)
    else if q[t.bit] then Node(t.bit, t.left, Insert(t.right, q, d))
    else Node(t.bit, Insert(t.left, q, d), t.right)
  }

  lemma {:induction false} InsertShares(t: Trie, q: Key, d: nat, k: Key, n: nat)
    requires d < |q| == |k| && n <= |k| && Shares(t, k, n)
    requires forall i :: 0 <= i < n ==> k[i] == q[i]
    ensures Shares(Insert(t, q, d), k, n)
  {
    if !Whole(t, d) {
      if q[t.bit] { InsertShares(t.right, q, d, k, n); } else { InsertShares(t.left, q, d, k, n); }
    }
  }

  lemma {:induction false} InsertAllBit(t: Trie, q: Key, d: nat, b: nat, v: bool)
    requires d < |q| && b < |q| && AllBit(t, b, v) && q[b] == v
    ensures AllBit(Insert(t, q, d), b, v)
  {
    if !Whole(t, d) {
      if q[t.bit] { InsertAllBit(t.right, q, d, b, v); } else { InsertAllBit(t.left, q, d, b, v); }
    }
  }

  /** Insertion adds exactly the query, at its rank, and keeps the trie well formed. */
  lemma {:induction false} InsertCorrect(t: Trie, q: Key, d: nat)
    requires Probed(t, q, d)
    ensures WellFormed(Insert(t, q, d), |q|)
    ensures Contents(Insert(t, q, d)) == InsertedAt(Contents(t), Rank(t, q, d), q)
  {
    if Whole(t, d) {
      InsertWhole(t, q, d);
    } else {
      ProbedSide(t, q, d);
      InsertCorrect(Side(t, q), q, d);
      InsertSideWellFormed(t, q, d);
      var k := Rank(Side(t, q), q, d);
      if q[t.bit] {
        InsertedRight(Contents(t.left), Contents(t.right), k, q);
      } else {
        InsertedLeft(Contents(t.left), Contents(t.right), k, q);
      }
    }
  }

  lemma InsertWhole(t: Trie, q: Key, d: nat)
    requires Probed(t, q, d) && Whole(t, d)
    ensures WellFormed(Insert(t, q, d), |q|)
    ensures Contents(Insert(t, q, d)) == InsertedAt(Contents(t), Rank(t, q, d), q)
  {
    WholeBranch(t, q, d);
    SharesAt(t, q, d, 0);
    SharesWeaken(t, q, First(t), d, d);
    InsertedEnds(Contents(t), q);
  }

  lemma InsertSideWellFormed(t: Trie, q: Key, d: nat)
    requires Probed(t, q, d) && !Whole(t, d)
    requires WellFormed(Insert(Side(t, q), q, d), |q|)
    ensures WellFormed(Insert(t, q, d), |q|)
  {
    var l, r, b := t.left, t.right, t.bit;
    var _ := ReachesAgrees(t, q, d, First(l), b);
    if q[b] {
      InsertShares(r, q, d, First(l), b);
      InsertAllBit(r, q, d, b, true);
    } else {
      var l' := Insert(l, q, d);
      InsertShares(l, q, d, First(l), b);
      InsertAllBit(l, q, d, b, false);
      SharesAt(l', First(l), b, 0);
      SharesWeaken(l', First(l), First(l'), b, b);
      SharesWeaken(r, First(l), First(l'), b, b);
    }
  }
}
