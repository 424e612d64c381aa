/** The preorder encoding of a blind trie: for every branch its bit and the number of keys on
its left, parents before children and left before right. */
module Preorder {
  import opened Keys
  import opened NodeArrays
  import opened Trie
  import opened TrieEdits

  function Bits(t: Trie): (s: seq<nat>)
    ensures |s| == Size(t) - 1
  {
    match t
    case Leaf(_) => []
    case Node(b, l, r) => [b] + Bits(l) + Bits(r)
  }

  function Counts(t: Trie): (s: seq<nat>)
    ensures |s| == Size(t) - 1
  {
    match t
    case Leaf(_) => []
    case Node(_, l, r) => [Size(l)] + Counts(l) + Counts(r)
  }

  /** The entries of `u` stand in the two arrays from position `p` on. */
  ghost predicate At(u: Trie, bits: seq<nat>, counts: seq<nat>, p: nat)
  {
    && p + Size(u) - 1 <= |bits| && p + Size(u) - 1 <= |counts|
    && (u.Node? ==>
        && bits[p] == u.bit && counts[p] == Size(u.left)
        && At(u.left, bits, counts, p + 1)
        && At(u.right, bits, counts, p + Size(u.left)))
  }

  lemma {:induction false} AtEncoding(u: Trie, bB: seq<nat>, aB: seq<nat>, bC: seq<nat>, aC: seq<nat>)
    requires |bB| == |bC|
    ensures At(u, bB + Bits(u) + aB, bC + Counts(u) + aC, |bB|)
  {
    match u
    case Leaf(_) =>
    case Node(b, l, r) =>
      Reassociate(bB, [b], Bits(l), Bits(r), aB);
      Reassociate(bC, [Size(l)], Counts(l), Counts(r), aC);
      AtEncoding(l, bB + [b], Bits(r) + aB, bC + [Size(l)], Counts(r) + aC);
      AtEncoding(r, bB + [b] + Bits(l), aB, bC + [Size(l)] + Counts(l), aC);
  }

  // ------------------------------------------------------------------------------------
  // Descending by position
  // ------------------------------------------------------------------------------------

  /** A query above the whole branch has rank at least one, one below it is not last. */
  lemma {:induction false} RankBounds(t: Trie, q: Key, d: nat)
    requires d < |q|
    ensures q[d] ==> 1 <= Rank(t, q, d)
    ensures !q[d] ==> Rank(t, q, d) < Size(t)
  {
    if !Whole(t, d) {
      if q[t.bit] { RankBounds(t.right, q, d); } else { RankBounds(t.left, q, d); }
    }
  }

  /** The side that holds the query can be told from the position of its neighbour. */
  lemma SideByRank(t: Trie, q: Key, d: nat)
    requires d < |q| && !Whole(t, d)
    ensures q[t.bit] <==> Rank(t, q, d) - (if q[d] then 1 else 0) >= Size(t.left)
  {
    if q[t.bit] { RankBounds(t.right, q, d); } else { RankBounds(t.left, q, d); }
  }

  // ------------------------------------------------------------------------------------
  // One edit in the middle of an encoding
  // ------------------------------------------------------------------------------------

  /** The encoding of `whole` is `before`, the entries of `part`, and `after`. */
  ghost predicate Framed(whole: Trie, part: Trie, beforeB: seq<nat>, afterB: seq<nat>, beforeC: seq<nat>, afterC: seq<nat>)
  {
    && Bits(whole) == beforeB + Bits(part) + afterB
    && Counts(whole) == beforeC + Counts(part) + afterC
    && |beforeB| == |beforeC| && |afterB| == |afterC|
  }

  /** Going right leaves the root and the left entries behind. */
  lemma FrameRight(whole: Trie, part: Trie, bB: seq<nat>, aB: seq<nat>, bC: seq<nat>, aC: seq<nat>)
    requires Framed(whole, part, bB, aB, bC, aC) && part.Node?
    ensures Framed(whole, part.right, bB + [part.bit] + Bits(part.left), aB,
                   bC + [Size(part.left)] + Counts(part.left), aC)
  {
    Reassociate(bB, [part.bit], Bits(part.left), Bits(part.right), aB);
    Reassociate(bC, [Size(part.left)], Counts(part.left), Counts(part.right), aC);
  }

  /** Going left leaves the root behind and the right entries ahead. */
  lemma FrameLeft(whole: Trie, part: Trie, bB: seq<nat>, aB: seq<nat>, bC: seq<nat>, aC: seq<nat>)
    requires Framed(whole, part, bB, aB, bC, aC) && part.Node?
    ensures Framed(whole, part.left, bB + [part.bit], Bits(part.right) + aB,
                   bC + [Size(part.left)], Counts(part.right) + aC)
  {
    Reassociate(bB, [part.bit], Bits(part.left), Bits(part.right), aB);
    Reassociate(bC, [Size(part.left)], Counts(part.left), Counts(part.right), aC);
  }

  lemma Reassociate(a: seq<nat>, x: seq<nat>, l: seq<nat>, r: seq<nat>, b: seq<nat>)
    ensures a + (x + l + r) + b == (a + x + l) + r + b
    ensures a + (x + l + r) + b == (a + x) + l + (r + b)
  {
  }

  lemma AtStart(t: Trie, bits: seq<nat>, counts: seq<nat>)
    requires Size(t) - 1 <= |bits| && Size(t) - 1 <= |counts|
    requires bits[..Size(t) - 1] == Bits(t) && counts[..Size(t) - 1] == Counts(t)
    ensures At(t, bits, counts, 0)
  {
    PrefixAndRest(bits, Bits(t));
    PrefixAndRest(counts, Counts(t));
    AtEncoding(t, [], bits[Size(t) - 1..], [], counts[Size(t) - 1..]);
  }

  // ------------------------------------------------------------------------------------
  // Insertion and removal seen from the entries
  // ------------------------------------------------------------------------------------

  /** The two arrays hold `part` between the frames. */
  ghost predicate Holds(bits: seq<nat>, counts: seq<nat>, part: Trie,
                        bB: seq<nat>, aB: seq<nat>, bC: seq<nat>, aC: seq<nat>)
  {
    && bits == bB + Bits(part) + aB
    && counts == bC + Counts(part) + aC
    && |bB| == |bC| && |aB| == |aC|
  }

  lemma HoldsRight(bits: seq<nat>, counts: seq<nat>, part: Trie, bB: seq<nat>, aB: seq<nat>, bC: seq<nat>, aC: seq<nat>)
    requires Holds(bits, counts, part, bB, aB, bC, aC) && part.Node?
    ensures Holds(bits, counts, part.right, bB + [part.bit] + Bits(part.left), aB,
                  bC + [Size(part.left)] + Counts(part.left), aC)
    ensures bits[|bB|] == part.bit && counts[|bC|] == Size(part.left)
  {
    Reassociate(bB, [part.bit], Bits(part.left), Bits(part.right), aB);
    Reassociate(bC, [Size(part.left)], Counts(part.left), Counts(part.right), aC);
  }

  /** Going left, with the left count of the root replaced by `x`. */
  lemma HoldsLeft(bits: seq<nat>, counts: seq<nat>, part: Trie, bB: seq<nat>, aB: seq<nat>, bC: seq<nat>, aC: seq<nat>, x: nat)
    requires Holds(bits, counts, part, bB, aB, bC, aC) && part.Node?
    ensures bits[|bB|] == part.bit && counts[|bC|] == Size(part.left)
    ensures Holds(bits, counts[|bC| := x], part.left, bB + [part.bit], Bits(part.right) + aB,
                  bC + [x], Counts(part.right) + aC)
  {
    Replaced(bits, bB, part.bit, part.bit, Bits(part.left), Bits(part.right), aB);
    Replaced(counts, bC, Size(part.left), x, Counts(part.left), Counts(part.right), aC);
  }

  lemma Replaced(s: seq<nat>, a: seq<nat>, x: nat, y: nat, l: seq<nat>, r: seq<nat>, b: seq<nat>)
    requires s == a + ([x] + l + r) + b
    ensures s[|a|] == x
    ensures s[|a| := y] == (a + [y]) + l + (r + b)
    ensures s[|a| := x] == s
  {
    assert s == a + [x] + (l + r + b);
    assert s[|a| := y] == a + [y] + (l + r + b);
  }

  /** Above a whole branch insertion adds one entry in front. */
  lemma InsertEntry(u: Trie, q: Key, d: nat)
    requires d < |q| && Whole(u, d)
    ensures Bits(Insert(u, q, d)) == [d] + Bits(u)
    ensures Counts(Insert(u, q, d)) == [if q[d] then Size(u) else 1] + Counts(u)
  {
  }

  lemma InsertedFramed(a: seq<nat>, m: seq<nat>, b: seq<nat>, x: nat)
    ensures InsertedAt(a + m + b, |a|, x) == a + ([x] + m) + b
  {
  }

  /** The arrays hold the part of the trie still to be searched, and everything outside it is
      already as insertion leaves it. */
  ghost predicate Counting(t: Trie, u: Trie, q: Key, d: nat, bits: seq<nat>, counts: seq<nat>,
                           bB: seq<nat>, aB: seq<nat>, bC: seq<nat>, aC: seq<nat>)
  {
    && Probed(u, q, d)
    && Framed(Insert(t, q, d), Insert(u, q, d), bB, aB, bC, aC)
    && Holds(bits, counts, u, bB, aB, bC, aC)
  }

  lemma CountingStarts(t: Trie, q: Key, d: nat)
    requires Probed(t, q, d)
    ensures Counting(t, t, q, d, Bits(t), Counts(t), [], [], [], [])
  {
    var w := Insert(t, q, d);
    assert Bits(w) == [] + Bits(w) + [] && Counts(w) == [] + Counts(w) + [];
    assert Bits(t) == [] + Bits(t) + [] && Counts(t) == [] + Counts(t) + [];
  }

  lemma CountingRight(t: Trie, u: Trie, q: Key, d: nat, bits: seq<nat>, counts: seq<nat>,
                      bB: seq<nat>, aB: seq<nat>, bC: seq<nat>, aC: seq<nat>)
    requires Counting(t, u, q, d, bits, counts, bB, aB, bC, aC) && !Whole(u, d) && q[u.bit]
    ensures Counting(t, u.right, q, d, bits, counts, bB + [u.bit] + Bits(u.left), aB,
                     bC + [Size(u.left)] + Counts(u.left), aC)
  {
    ProbedSide(u, q, d);
    FrameRight(Insert(t, q, d), Insert(u, q, d), bB, aB, bC, aC);
    HoldsRight(bits, counts, u, bB, aB, bC, aC);
  }

  lemma CountingLeft(t: Trie, u: Trie, q: Key, d: nat, bits: seq<nat>, counts: seq<nat>,
                     bB: seq<nat>, aB: seq<nat>, bC: seq<nat>, aC: seq<nat>)
    requires Counting(t, u, q, d, bits, counts, bB, aB, bC, aC) && !Whole(u, d) && !q[u.bit]
    ensures |bC| < |counts|
    ensures Counting(t, u.left, q, d, bits, counts[|bC| := Size(u.left) + 1], bB + [u.bit], Bits(u.right) + aB,
                     bC + [Size(u.left) + 1], Counts(u.right) + aC)
  {
    hide Holds, Framed, Contents, Counts, Bits;
    ProbedSide(u, q, d);
    HoldsLength(bits, counts, u, bB, aB, bC, aC);
    FrameLeft(Insert(t, q, d), Insert(u, q, d), bB, aB, bC, aC);
    HoldsLeft(bits, counts, u, bB, aB, bC, aC, Size(u.left) + 1);
  }

  lemma HoldsLength(bits: seq<nat>, counts: seq<nat>, part: Trie, bB: seq<nat>, aB: seq<nat>, bC: seq<nat>, aC: seq<nat>)
    requires Holds(bits, counts, part, bB, aB, bC, aC) && part.Node?
    ensures |bC| < |counts|
  {
  }

  /** What the entry at the current position says about the current branch. */
  lemma CountingHere(t: Trie, u: Trie, q: Key, d: nat, bits: seq<nat>, counts: seq<nat>,
                     bB: seq<nat>, aB: seq<nat>, bC: seq<nat>, aC: seq<nat>)
    requires Counting(t, u, q, d, bits, counts, bB, aB, bC, aC)
    ensures d < |q| && |bB| == |bC| <= |bits| == |counts|
    ensures u.Leaf? <==> Size(u) == 1
    ensures u.Node? ==> |bB| < |bits| && u.bit < |q| && bits[|bB|] == u.bit && counts[|bB|] == Size(u.left)
    ensures u.Node? ==> 1 <= Size(u.left) && 1 <= Size(u.right) && Size(u) == Size(u.left) + Size(u.right)
    ensures u.Node? ==> |Bits(u.left)| == |Counts(u.left)| == Size(u.left) - 1
    ensures Whole(u, d) <==> u.Leaf? || d <= u.bit
    ensures !Whole(u, d) ==> (q[u.bit] <==> Rank(u, q, d) - (if q[d] then 1 else 0) >= Size(u.left))
    ensures !Whole(u, d) ==> Rank(u, q, d) == if q[u.bit] then Size(u.left) + Rank(u.right, q, d) else Rank(u.left, q, d)
    ensures Whole(u, d) ==> Rank(u, q, d) == if q[d] then Size(u) else 0
  {
    if u.Node? { HoldsRight(bits, counts, u, bB, aB, bC, aC); }
    if !Whole(u, d) { SideByRank(u, q, d); }
  }

  /** One entry, put in front of a whole branch, completes the insertion. */
  lemma CountingEnds(t: Trie, u: Trie, q: Key, d: nat, bits: seq<nat>, counts: seq<nat>,
                     bB: seq<nat>, aB: seq<nat>, bC: seq<nat>, aC: seq<nat>)
    requires Counting(t, u, q, d, bits, counts, bB, aB, bC, aC) && Whole(u, d)
    ensures |bB| <= |bits| == |counts|
    ensures InsertedAt<nat>(bits, |bB|, d) == Bits(Insert(t, q, d))
    ensures InsertedAt<nat>(counts, |bB|, if q[d] then Size(u) else 1) == Counts(Insert(t, q, d))
  {
    InsertEntry(u, q, d);
    InsertedFramed(bB, Bits(u), aB, d);
    InsertedFramed(bC, Counts(u), aC, if q[d] then Size(u) else 1);
  }

  /** The same for removal: the arrays hold the part that still contains the key to remove. */
  ghost predicate Discounting(t: Trie, u: Trie, i: nat, j: nat, bits: seq<nat>, counts: seq<nat>,
                              bB: seq<nat>, aB: seq<nat>, bC: seq<nat>, aC: seq<nat>)
  {
    && t.Node? && i < Size(t) && u.Node? && j < Size(u)
    && Framed(Remove(t, i), Remove(u, j), bB, aB, bC, aC)
    && Holds(bits, counts, u, bB, aB, bC, aC)
  }

  lemma DiscountingStarts(t: Trie, i: nat)
    requires t.Node? && i < Size(t)
    ensures Discounting(t, t, i, i, Bits(t), Counts(t), [], [], [], [])
  {
    var w := Remove(t, i);
    assert Bits(w) == [] + Bits(w) + [] && Counts(w) == [] + Counts(w) + [];
    assert Bits(t) == [] + Bits(t) + [] && Counts(t) == [] + Counts(t) + [];
  }

  lemma DiscountingHere(t: Trie, u: Trie, i: nat, j: nat, bits: seq<nat>, counts: seq<nat>,
                        bB: seq<nat>, aB: seq<nat>, bC: seq<nat>, aC: seq<nat>)
    requires Discounting(t, u, i, j, bits, counts, bB, aB, bC, aC)
    ensures |bB| == |bC| < |bits| == |counts|
    ensures bits[|bB|] == u.bit && counts[|bB|] == Size(u.left)
    ensures 1 <= Size(u.left) && 1 <= Size(u.right) && Size(u) == Size(u.left) + Size(u.right)
    ensures (u.left.Node? <==> 1 < Size(u.left)) && (u.right.Node? <==> 1 < Size(u.right))
    ensures |Bits(u.left)| == |Counts(u.left)| == Size(u.left) - 1
    ensures j < Size(u)
  {
    HoldsRight(bits, counts, u, bB, aB, bC, aC);
  }

  lemma DiscountingRight(t: Trie, u: Trie, i: nat, j: nat, bits: seq<nat>, counts: seq<nat>,
                         bB: seq<nat>, aB: seq<nat>, bC: seq<nat>, aC: seq<nat>)
    requires Discounting(t, u, i, j, bits, counts, bB, aB, bC, aC)
    requires Size(u.left) <= j && u.right.Node?
    ensures Discounting(t, u.right, i, j - Size(u.left), bits, counts, bB + [u.bit] + Bits(u.left), aB,
                        bC + [Size(u.left)] + Counts(u.left), aC)
  {
    FrameRight(Remove(t, i), Remove(u, j), bB, aB, bC, aC);
    HoldsRight(bits, counts, u, bB, aB, bC, aC);
  }

  lemma DiscountingLeft(t: Trie, u: Trie, i: nat, j: nat, bits: seq<nat>, counts: seq<nat>,
                        bB: seq<nat>, aB: seq<nat>, bC: seq<nat>, aC: seq<nat>)
    requires Discounting(t, u, i, j, bits, counts, bB, aB, bC, aC)
    requires j < Size(u.left) && u.left.Node?
    ensures |bC| < |counts|
    ensures Discounting(t, u.left, i, j, bits, counts[|bC| := Size(u.left) - 1], bB + [u.bit], Bits(u.right) + aB,
                        bC + [Size(u.left) - 1], Counts(u.right) + aC)
  {
    hide Holds, Framed, Contents, Counts, Bits;
    HoldsLength(bits, counts, u, bB, aB, bC, aC);
    FrameLeft(Remove(t, i), Remove(u, j), bB, aB, bC, aC);
    HoldsLeft(bits, counts, u, bB, aB, bC, aC, Size(u.left) - 1);
  }

  /** At the parent of the key to remove, deleting the one entry completes the removal. */
  lemma DiscountingEnds(t: Trie, u: Trie, i: nat, j: nat, bits: seq<nat>, counts: seq<nat>,
                        bB: seq<nat>, aB: seq<nat>, bC: seq<nat>, aC: seq<nat>, x: nat)
    requires Discounting(t, u, i, j, bits, counts, bB, aB, bC, aC)
    requires if j < Size(u.left) then u.left.Leaf? else u.right.Leaf?
    ensures |bB| < |bits| == |counts|
    ensures RemovedAt<nat>(bits, |bB|) == Bits(Remove(t, i))
    ensures RemovedAt<nat>(counts[|bB| := x], |bB|) == Counts(Remove(t, i))
  {
    DiscountingHere(t, u, i, j, bits, counts, bB, aB, bC, aC);
    EntryRemoved(bits, bB, u.bit, u.bit, Bits(u.left), Bits(u.right), aB);
    EntryRemoved(counts, bC, Size(u.left), x, Counts(u.left), Counts(u.right), aC);
  }

  lemma EntryRemoved(s: seq<nat>, a: seq<nat>, x: nat, y: nat, l: seq<nat>, r: seq<nat>, b: seq<nat>)
    requires s == a + ([x] + l + r) + b
    ensures |a| < |s| && s[|a| := x] == s
    ensures l == [] ==> RemovedAt(s[|a| := y], |a|) == a + r + b
    ensures r == [] ==> RemovedAt(s[|a| := y], |a|) == a + l + b
  {
  }

  lemma SizesOf(t: Trie)
    ensures |Bits(t)| == |Counts(t)| == Size(t) - 1
    ensures t.Leaf? <==> Size(t) == 1
    ensures t.Node? ==> Size(t) == Size(t.left) + Size(t.right) && 1 <= Size(t.left) && 1 <= Size(t.right)
  {
  }
}
