/** The array work of `MergeBlindiNodes` on preorder entries. */
module SubTrieJoin {
  import opened Keys
  import opened NodeArrays
  import opened Trie
  import opened TrieEdits
  import opened Preorder
  import opened PreorderSplit
  import opened PreorderJoin
  import opened SubTrieSplit

  /** The entries of the large node from `back` on stand at the end of the new arrays. */
  ghost predicate JoinTails(ub: seq<nat>, uc: seq<nat>, nb: seq<nat>, nc: seq<nat>, back: nat, n1: nat)
  {
    && back <= |ub| == |uc| && |nb| == |nc| == n1 + |ub|
    && nb[back + n1..] == ub[back..] && nc[back + n1..] == uc[back..]
  }

  lemma JoinTailsStart(ub: seq<nat>, uc: seq<nat>, nb: seq<nat>, nc: seq<nat>, n1: nat)
    requires |ub| == |uc| && |nb| == |nc| == n1 + |ub|
    ensures JoinTails(ub, uc, nb, nc, |ub|, n1)
  {
  }

  /** Writing in front of the tails leaves them in place. */
  lemma JoinTailsKept(ub: seq<nat>, uc: seq<nat>, nb: seq<nat>, nc: seq<nat>, nb': seq<nat>, nc': seq<nat>,
                      back: nat, n1: nat, at: nat)
    requires JoinTails(ub, uc, nb, nc, back, n1) && at <= back + n1
    requires |nb'| == |nc'| == |nb| && at <= |nb| == |nc| && nb'[at..] == nb[at..] && nc'[at..] == nc[at..]
    ensures JoinTails(ub, uc, nb', nc', back, n1)
  {
    SuffixOfSuffix(nb, nb', at, back + n1);
    SuffixOfSuffix(nc, nc', at, back + n1);
  }

  lemma SuffixOfSuffix(s: seq<nat>, s': seq<nat>, i: nat, j: nat)
    requires i <= j <= |s| == |s'| && s[i..] == s'[i..]
    ensures s[j..] == s'[j..]
  {
    assert s[j..] == s[i..][j - i..] && s'[j..] == s'[i..][j - i..];
  }

  /** Puts the entries `lo..back` of the large node in front of its tails. */
  method CopyTailsUp(bits: array<nat>, counts: array<nat>, n: nat, lo: nat, back: nat,
                     newBits: array<nat>, newCounts: array<nat>, n1: nat)
    requires n <= bits.Length == counts.Length && lo <= back
    requires JoinTails(bits[..n], counts[..n], newBits[..], newCounts[..], back, n1)
    requires newBits != bits && newBits != counts && newCounts != bits && newCounts != counts && newBits != newCounts
    modifies newBits, newCounts
    ensures JoinTails(bits[..n], counts[..n], newBits[..], newCounts[..], lo, n1)
    ensures newBits[..lo + n1] == old(newBits[..lo + n1]) && newCounts[..lo + n1] == old(newCounts[..lo + n1])
  {
    TailUp(bits, n, lo, back, newBits, n1);
    TailUp(counts, n, lo, back, newCounts, n1);
  }

  method TailUp(src: array<nat>, n: nat, lo: nat, back: nat, dst: array<nat>, n1: nat)
    requires src != dst && lo <= back <= n <= src.Length && dst.Length == n1 + n
    requires dst[..][back + n1..] == src[..n][back..]
    modifies dst
    ensures dst[..][lo + n1..] == src[..n][lo..]
    ensures dst[..lo + n1] == old(dst[..lo + n1])
  {
    hide *;
    CopyBackwardUp(src, lo, back, dst, n1);
    SuffixJoined(dst[..], src[..n], lo, back, n1);
  }

  lemma SuffixJoined(d: seq<nat>, s: seq<nat>, lo: nat, back: nat, n1: nat)
    requires lo <= back <= |s| && |d| == n1 + |s|
    requires d[lo + n1..back + n1] == s[lo..back] && d[back + n1..] == s[back..]
    ensures d[lo + n1..] == s[lo..]
  {
    assert d[lo + n1..] == d[lo + n1..back + n1] + d[back + n1..];
    assert s[lo..] == s[lo..back] + s[back..];
  }

  /** The next branch of the small spine, with what hangs on its left. */
  method SmallTurn(ghost t0: Trie, ghost u0: Trie, n1: nat, n2: nat, d: nat,
                  bits: array<nat>, counts: array<nat>, largeBits: array<nat>, largeCounts: array<nat>,
                  newBits: array<nat>, newCounts: array<nat>, i0: nat, il0: nat, back0: nat, ghost t: Trie, ghost u: Trie)
    returns (i: nat, ghost t': Trie)
    requires 1 <= n1 == Size(t0) && 1 <= n2 == Size(u0)
    requires n1 - 1 <= bits.Length == counts.Length && n2 - 1 <= largeBits.Length == largeCounts.Length
    requires newBits.Length == newCounts.Length == n1 + (n2 - 1)
    requires newBits != bits && newBits != counts && newCounts != bits && newCounts != counts && newBits != newCounts
    requires newBits != largeBits && newBits != largeCounts && newCounts != largeBits && newCounts != largeCounts
    requires i0 <= n1 - 1 && il0 <= back0 <= n2 - 1
    requires Joining(t0, u0, d, t, u, bits[..n1 - 1], counts[..n1 - 1], largeBits[..n2 - 1], largeCounts[..n2 - 1],
                     i0, il0, back0, newBits[..i0 + il0], newCounts[..i0 + il0])
    requires JoinTails(largeBits[..n2 - 1], largeCounts[..n2 - 1], newBits[..], newCounts[..], back0, n1)
    requires !BoundaryNext(t, u, d) && SmallNext(t, u)
    modifies newBits, newCounts
    ensures i <= n1 - 1 && Size(t') < Size(t)
    ensures Joining(t0, u0, d, t', u, bits[..n1 - 1], counts[..n1 - 1], largeBits[..n2 - 1], largeCounts[..n2 - 1],
                    i, il0, back0, newBits[..i + il0], newCounts[..i + il0])
    ensures JoinTails(largeBits[..n2 - 1], largeCounts[..n2 - 1], newBits[..], newCounts[..], back0, n1)
  {
    hide *;
    ghost var tb: seq<nat>, tc: seq<nat>, ub: seq<nat>, uc: seq<nat> := bits[..n1 - 1], counts[..n1 - 1], largeBits[..n2 - 1], largeCounts[..n2 - 1];
    JoiningHere(t0, u0, d, t, u, tb, tc, ub, uc, i0, il0, back0, newBits[..i0 + il0], newCounts[..i0 + il0]);
    var count := counts[i0];
    JoiningSmall(t0, u0, d, t, u, tb, tc, ub, uc, i0, il0, back0, newBits[..i0 + il0], newCounts[..i0 + il0]);
    SmallBranch(bits, counts, n1 - 1, i0, i0 + count, newBits, newCounts, i0 + il0, ub, uc, back0, n1);
    i := i0 + count;
    t' := t.right;
    JoiningHere(t0, u0, d, t', u, tb, tc, ub, uc, i, il0, back0, newBits[..i + il0], newCounts[..i + il0]);
  }

  /** The next branch of the large spine, with what hangs on its right. */
  method LargeTurn(ghost t0: Trie, ghost u0: Trie, n1: nat, n2: nat, d: nat,
                  bits: array<nat>, counts: array<nat>, largeBits: array<nat>, largeCounts: array<nat>,
                  newBits: array<nat>, newCounts: array<nat>, i0: nat, il0: nat, back0: nat, ghost t: Trie, ghost u: Trie)
    returns (il: nat, back: nat, ghost u': Trie)
    requires 1 <= n1 == Size(t0) && 1 <= n2 == Size(u0)
    requires n1 - 1 <= bits.Length == counts.Length && n2 - 1 <= largeBits.Length == largeCounts.Length
    requires newBits.Length == newCounts.Length == n1 + (n2 - 1)
    requires newBits != bits && newBits != counts && newCounts != bits && newCounts != counts && newBits != newCounts
    requires newBits != largeBits && newBits != largeCounts && newCounts != largeBits && newCounts != largeCounts
    requires i0 <= n1 - 1 && il0 <= back0 <= n2 - 1
    requires Joining(t0, u0, d, t, u, bits[..n1 - 1], counts[..n1 - 1], largeBits[..n2 - 1], largeCounts[..n2 - 1],
                     i0, il0, back0, newBits[..i0 + il0], newCounts[..i0 + il0])
    requires JoinTails(largeBits[..n2 - 1], largeCounts[..n2 - 1], newBits[..], newCounts[..], back0, n1)
    requires !BoundaryNext(t, u, d) && !SmallNext(t, u)
    modifies newBits, newCounts
    ensures il <= back <= n2 - 1 && Size(u') < Size(u)
    ensures Joining(t0, u0, d, t, u', bits[..n1 - 1], counts[..n1 - 1], largeBits[..n2 - 1], largeCounts[..n2 - 1],
                    i0, il, back, newBits[..i0 + il], newCounts[..i0 + il])
    ensures JoinTails(largeBits[..n2 - 1], largeCounts[..n2 - 1], newBits[..], newCounts[..], back, n1)
  {
    hide *;
    ghost var tb: seq<nat>, tc: seq<nat>, ub: seq<nat>, uc: seq<nat> := bits[..n1 - 1], counts[..n1 - 1], largeBits[..n2 - 1], largeCounts[..n2 - 1];
    JoiningHere(t0, u0, d, t, u, tb, tc, ub, uc, i0, il0, back0, newBits[..i0 + il0], newCounts[..i0 + il0]);
    var count := largeCounts[il0];
    JoiningLarge(t0, u0, d, t, u, tb, tc, ub, uc, i0, il0, back0, newBits[..i0 + il0], newCounts[..i0 + il0]);
    LargeBranch(largeBits, largeCounts, n2 - 1, il0, il0 + count, back0, newBits, newCounts, n1, i0 + il0, largeBits[il0], count + (n1 - i0));
    back := il0 + count;
    il := il0 + 1;
    u' := u.left;
    JoiningHere(t0, u0, d, t, u', tb, tc, ub, uc, i0, il, back, newBits[..i0 + il], newCounts[..i0 + il]);
  }

  /** One turn of that loop: the next branch of one of the spines, with what hangs on its outer side. */
  method JoinTurn(ghost t0: Trie, ghost u0: Trie, n1: nat, n2: nat, d: nat,
                  bits: array<nat>, counts: array<nat>, largeBits: array<nat>, largeCounts: array<nat>,
                  newBits: array<nat>, newCounts: array<nat>, i0: nat, il0: nat, back0: nat, ghost t: Trie, ghost u: Trie)
    returns (i: nat, il: nat, back: nat, ghost t': Trie, ghost u': Trie)
    requires 1 <= n1 == Size(t0) && 1 <= n2 == Size(u0)
    requires n1 - 1 <= bits.Length == counts.Length && n2 - 1 <= largeBits.Length == largeCounts.Length
    requires newBits.Length == newCounts.Length == n1 + (n2 - 1)
    requires newBits != bits && newBits != counts && newCounts != bits && newCounts != counts && newBits != newCounts
    requires newBits != largeBits && newBits != largeCounts && newCounts != largeBits && newCounts != largeCounts
    requires i0 <= n1 - 1 && il0 <= back0 <= n2 - 1
    requires Joining(t0, u0, d, t, u, bits[..n1 - 1], counts[..n1 - 1], largeBits[..n2 - 1], largeCounts[..n2 - 1],
                     i0, il0, back0, newBits[..i0 + il0], newCounts[..i0 + il0])
    requires JoinTails(largeBits[..n2 - 1], largeCounts[..n2 - 1], newBits[..], newCounts[..], back0, n1)
    requires !((i0 == n1 - 1 || d < bits[i0]) && (il0 == back0 || d < largeBits[il0]))
    modifies newBits, newCounts
    ensures i <= n1 - 1 && il <= back <= n2 - 1 && Size(t') + Size(u') < Size(t) + Size(u)
    ensures Joining(t0, u0, d, t', u', bits[..n1 - 1], counts[..n1 - 1], largeBits[..n2 - 1], largeCounts[..n2 - 1],
                    i, il, back, newBits[..i + il], newCounts[..i + il])
    ensures JoinTails(largeBits[..n2 - 1], largeCounts[..n2 - 1], newBits[..], newCounts[..], back, n1)
  {
    hide *;
    i, il, back, t', u' := i0, il0, back0, t, u;
    JoiningHere(t0, u0, d, t, u, bits[..n1 - 1], counts[..n1 - 1], largeBits[..n2 - 1], largeCounts[..n2 - 1], i, il, back, newBits[..i + il], newCounts[..i + il]);
    if il == back || (i < n1 - 1 && bits[i] < largeBits[il]) {
      i, t' := SmallTurn(t0, u0, n1, n2, d, bits, counts, largeBits, largeCounts, newBits, newCounts, i, il, back, t, u);
    } else {
      il, back, u' := LargeTurn(t0, u0, n1, n2, d, bits, counts, largeBits, largeCounts, newBits, newCounts, i, il, back, t, u);
    }
  }

  /** The loop of the merge: writes the branches of both spines down to the boundary. */
  method JoinSpines(ghost t0: Trie, ghost u0: Trie, n1: nat, n2: nat, d: nat,
                    bits: array<nat>, counts: array<nat>, largeBits: array<nat>, largeCounts: array<nat>,
                    newBits: array<nat>, newCounts: array<nat>)
    returns (i: nat, il: nat, back: nat, ghost t: Trie, ghost u: Trie)
    requires 1 <= n1 == Size(t0) && 1 <= n2 == Size(u0)
    requires n1 - 1 <= bits.Length == counts.Length && n2 - 1 <= largeBits.Length == largeCounts.Length
    requires newBits.Length == newCounts.Length == n1 + (n2 - 1)
    requires bits[..n1 - 1] == Bits(t0) && counts[..n1 - 1] == Counts(t0)
    requires largeBits[..n2 - 1] == Bits(u0) && largeCounts[..n2 - 1] == Counts(u0)
    requires newBits != bits && newBits != counts && newCounts != bits && newCounts != counts && newBits != newCounts
    requires newBits != largeBits && newBits != largeCounts && newCounts != largeBits && newCounts != largeCounts
    modifies newBits, newCounts
    ensures BoundaryNext(t, u, d) && i + il <= newBits.Length
    ensures Joining(t0, u0, d, t, u, bits[..n1 - 1], counts[..n1 - 1], largeBits[..n2 - 1], largeCounts[..n2 - 1],
                    i, il, back, newBits[..i + il], newCounts[..i + il])
    ensures JoinTails(largeBits[..n2 - 1], largeCounts[..n2 - 1], newBits[..], newCounts[..], back, n1)
  {
    hide *;
    i, il, back := 0, 0, n2 - 1;
    t, u := t0, u0;
    ghost var tb: seq<nat>, tc: seq<nat> := bits[..n1 - 1], counts[..n1 - 1];
    ghost var ub: seq<nat>, uc: seq<nat> := largeBits[..n2 - 1], largeCounts[..n2 - 1];
    JoiningStarts(t0, u0, d);
    JoinTailsStart(ub, uc, newBits[..], newCounts[..], n1);
    assert newBits[..0] == [] && newCounts[..0] == [];
    while i < n1 - 1 || il < back
      invariant i <= n1 - 1 && il <= back <= n2 - 1
      invariant Joining(t0, u0, d, t, u, tb, tc, ub, uc, i, il, back, newBits[..i + il], newCounts[..i + il])
      invariant JoinTails(ub, uc, newBits[..], newCounts[..], back, n1)
      decreases Size(t) + Size(u)
    {
      JoiningHere(t0, u0, d, t, u, tb, tc, ub, uc, i, il, back, newBits[..i + il], newCounts[..i + il]);
      if (i == n1 - 1 || d < bits[i]) && (il == back || d < largeBits[il]) {
        break;
      }
      i, il, back, t, u := JoinTurn(t0, u0, n1, n2, d, bits, counts, largeBits, largeCounts, newBits, newCounts, i, il, back, t, u);
    }
    JoiningHere(t0, u0, d, t, u, tb, tc, ub, uc, i, il, back, newBits[..i + il], newCounts[..i + il]);
  }

  lemma SliceOfPrefix(s: seq<nat>, n: nat, i: nat, j: nat)
    requires i <= j <= n <= |s|
    ensures s[..n][i..j] == s[i..j]
  {
  }

  /** Writes one branch of the small trie and its left side in front. */
  method SmallBranch(bits: array<nat>, counts: array<nat>, n: nat, lo: nat, hi: nat,
                     newBits: array<nat>, newCounts: array<nat>, at: nat,
                     ghost ub: seq<nat>, ghost uc: seq<nat>, ghost back: nat, ghost n1: nat)
    requires lo <= hi <= n <= bits.Length == counts.Length && at + (hi - lo) <= back + n1
    requires newBits != bits && newBits != counts && newCounts != bits && newCounts != counts && newBits != newCounts
    requires newBits.Length == newCounts.Length && back + n1 <= newBits.Length
    requires JoinTails(ub, uc, newBits[..], newCounts[..], back, n1)
    modifies newBits, newCounts
    ensures JoinTails(ub, uc, newBits[..], newCounts[..], back, n1)
    ensures newBits[..at + (hi - lo)] == old(newBits[..at]) + bits[..n][lo..hi]
    ensures newCounts[..at + (hi - lo)] == old(newCounts[..at]) + counts[..n][lo..hi]
  {
    hide *;
    SliceOfPrefix(bits[..], n, lo, hi);
    SliceOfPrefix(counts[..], n, lo, hi);
    ghost var nb, nc := newBits[..], newCounts[..];
    CopyEntries(bits, counts, lo, hi, newBits, newCounts, at);
    JoinTailsKept(ub, uc, nb, nc, newBits[..], newCounts[..], back, n1, at + (hi - lo));
  }

  /** Writes one branch of the large trie in front and its right side behind. */
  method LargeBranch(bits: array<nat>, counts: array<nat>, n: nat, il: nat, lo: nat, back: nat,
                     newBits: array<nat>, newCounts: array<nat>, n1: nat, at: nat, bit: nat, count: nat)
    requires n <= bits.Length == counts.Length && il < lo <= back && at + 1 <= lo + n1
    requires JoinTails(bits[..n], counts[..n], newBits[..], newCounts[..], back, n1)
    requires newBits.Length == newCounts.Length && at < newBits.Length
    requires newBits != bits && newBits != counts && newCounts != bits && newCounts != counts && newBits != newCounts
    modifies newBits, newCounts
    ensures JoinTails(bits[..n], counts[..n], newBits[..], newCounts[..], lo, n1)
    ensures newBits[..at + 1] == old(newBits[..at]) + [bit] && newCounts[..at + 1] == old(newCounts[..at]) + [count]
  {
    CopyTailsUp(bits, counts, n, lo, back, newBits, newCounts, n1);
    ghost var nb, nc := newBits[..], newCounts[..];
    assert nb[..lo + n1][..at] == nb[..at] && nc[..lo + n1][..at] == nc[..at];
    assert old(newBits[..])[..lo + n1][..at] == old(newBits[..at]);
    assert old(newCounts[..])[..lo + n1][..at] == old(newCounts[..at]);
    newBits[at] := bit;
    newCounts[at] := count;
    JoinTailsKept(bits[..n], counts[..n], nb, nc, newBits[..], newCounts[..], lo, n1, at + 1);
  }

  /** What follows the spines: the boundary branch and the two rests. */
  method JoinRest(ghost t0: Trie, ghost u0: Trie, n1: nat, n2: nat, d: nat,
                  bits: array<nat>, counts: array<nat>, largeBits: array<nat>, largeCounts: array<nat>,
                  newBits: array<nat>, newCounts: array<nat>, i: nat, il: nat, back: nat, ghost t: Trie, ghost u: Trie)
    requires 1 <= n1 == Size(t0) && 1 <= n2 == Size(u0)
    requires n1 - 1 <= bits.Length == counts.Length && n2 - 1 <= largeBits.Length == largeCounts.Length
    requires newBits.Length == newCounts.Length == n1 + (n2 - 1)
    requires newBits != bits && newBits != counts && newCounts != bits && newCounts != counts && newBits != newCounts
    requires newBits != largeBits && newBits != largeCounts && newCounts != largeBits && newCounts != largeCounts
    requires BoundaryNext(t, u, d) && i + il <= newBits.Length
    requires Joining(t0, u0, d, t, u, bits[..n1 - 1], counts[..n1 - 1], largeBits[..n2 - 1], largeCounts[..n2 - 1],
                     i, il, back, newBits[..i + il], newCounts[..i + il])
    requires JoinTails(largeBits[..n2 - 1], largeCounts[..n2 - 1], newBits[..], newCounts[..], back, n1)
    modifies newBits, newCounts
    ensures newBits[..] == Bits(Join(t0, u0, d)) && newCounts[..] == Counts(Join(t0, u0, d))
  {
    hide *;
    var f := i + il;
    ghost var tb: seq<nat>, tc: seq<nat>, ub: seq<nat>, uc: seq<nat> :=
      bits[..n1 - 1], counts[..n1 - 1], largeBits[..n2 - 1], largeCounts[..n2 - 1];
    ghost var fB: seq<nat>, fC: seq<nat> := newBits[..f], newCounts[..f];
    JoiningHere(t0, u0, d, t, u, tb, tc, ub, uc, i, il, back, fB, fC);
    JoiningEnds(t0, u0, d, t, u, tb, tc, ub, uc, i, il, back, fB, fC);
    JoinTailsAre(ub, uc, newBits[..], newCounts[..], back, n1);
    RestOfOne(bits, n1 - 1, largeBits, n2 - 1, newBits, i, il, back, d);
    RestOfOne(counts, n1 - 1, largeCounts, n2 - 1, newCounts, i, il, back, n1 - i);
  }

  lemma JoinTailsAre(ub: seq<nat>, uc: seq<nat>, nb: seq<nat>, nc: seq<nat>, back: nat, n1: nat)
    requires JoinTails(ub, uc, nb, nc, back, n1)
    ensures back <= |ub| == |uc| && |nb| == |nc| == n1 + |ub|
    ensures nb[back + n1..] == ub[back..] && nc[back + n1..] == uc[back..]
  {
  }

  method RestOfOne(src: array<nat>, n: nat, large: array<nat>, nL: nat, dst: array<nat>, i: nat, il: nat, back: nat, x: nat)
    requires src != dst && large != dst && i <= n <= src.Length && il <= back <= nL <= large.Length
    requires dst.Length == n + 1 + nL && dst[..][back + n + 1..] == large[..nL][back..]
    modifies dst
    ensures dst[..] == Assembled(old(dst[..i + il]), x, src[..n], i, large[..nL], il, back)
  {
    hide *;
    var f := i + il;
    dst[f] := x;
    label Boundary:
    CopyForward(src, i, n, dst, f + 1);
    label Small:
    CopyForward(large, il, back, dst, n + 1 + il);
    FivePieces(dst[..], old@Small(dst[..]), old@Boundary(dst[..]), old(dst[..]), x, src[..], n, large[..], nL, i, il, back);
  }

  lemma FivePieces(d3: seq<nat>, d2: seq<nat>, d1: seq<nat>, d0: seq<nat>, x: nat, s: seq<nat>, n: nat, l: seq<nat>, nL: nat, i: nat, il: nat, back: nat)
    requires i <= n <= |s| && il <= back <= nL <= |l|
    requires |d0| == |d1| == |d2| == |d3| == n + 1 + nL
    requires d1 == d0[i + il := x]
    requires d2[..i + il + 1] == d1[..i + il + 1] && d2[i + il + 1..n + 1 + il] == s[i..n] && d2[n + 1 + il..] == d1[n + 1 + il..]
    requires d3[..n + 1 + il] == d2[..n + 1 + il] && d3[n + 1 + il..n + 1 + back] == l[il..back] && d3[n + 1 + back..] == d2[n + 1 + back..]
    requires d0[back + n + 1..] == l[..nL][back..]
    ensures d3 == Assembled(d0[..i + il], x, s[..n], i, l[..nL], il, back)
  {
    Pieces(d3, n + 1 + il, n + 1 + back);
    Pieces(d2, i + il + 1, n + 1 + il);
    assert d2[..n + 1 + il] == d2[..i + il + 1] + d2[i + il + 1..n + 1 + il];
    assert d1[..i + il + 1] == d0[..i + il] + [x];
    assert s[..n][i..] == s[i..n] && l[..nL][il..back] == l[il..back];
    SuffixOfSuffix(d2, d1, n + 1 + il, n + 1 + back);
    assert d1[n + 1 + back..] == d0[n + 1 + back..];
  }

  lemma Pieces(s: seq<nat>, i: nat, j: nat)
    requires i <= j <= |s|
    ensures s == s[..i] + s[i..j] + s[j..]
  {
  }

  // ------------------------------------------------------------------------------------
  // The store in front of the loop
  // ------------------------------------------------------------------------------------

  /** Before the loop the merge also copies the branch bits of the large node behind those of this one
      and stores the boundary bit at the place of the last key.  In a node with room for one more key
      that place is one behind the array of branch bits: it is the first left count. */
  method StoreBoundary(largeBits: array<nat>, n2: nat, bits: array<nat>, counts: array<nat>, n1: nat, d: nat)
    requires bits != counts && largeBits != bits && largeBits != counts && 0 < n1 && 0 < n2
    requires n1 + n2 - 1 <= bits.Length == counts.Length && n2 - 1 <= largeBits.Length
    modifies bits, counts
    ensures bits[..n1 - 1] == old(bits[..n1 - 1])
    ensures counts[..] == if n1 < bits.Length then old(counts[..]) else old(counts[..])[0 := d]
  {
    CopyForward(largeBits, 0, n2 - 1, bits, n1);
    assert bits[..n1][..n1 - 1] == bits[..n1 - 1] && old(bits[..n1])[..n1 - 1] == old(bits[..n1 - 1]);
    if n1 < bits.Length {
      bits[n1] := d;
    } else {
      counts[n1 - bits.Length] := d;
    }
  }

  /** Where the loop ends when the large node has one key; -1 if a count leads it out of the arrays or
      keeps it where it is. */
  function Stop(bits: seq<nat>, counts: seq<nat>, d: nat, i: nat): (s: int)
    requires i <= |bits| == |counts|
    ensures s == -1 || i <= s <= |bits|
    decreases |bits| - i
  {
    if i == |bits| || d < bits[i] then i
    else if counts[i] == 0 || |bits| < i + counts[i] then -1
    else Stop(bits, counts, d, i + counts[i])
  }

  /** The entries that are written when the loop has ended there. */
  function Written(s: seq<nat>, stop: nat, x: nat): (r: seq<nat>)
    requires stop <= |s|
    ensures |r| == |s| + 1
  {
    s[..stop] + [x] + s[stop..]
  }

  /** With a first count that is not that of the trie, nothing comes out that is the joined trie. */
  lemma OverwrittenDiffers(t: Trie, u: Trie, d: nat)
    requires t.Node? && u.Leaf? && d != Size(t.left)
    ensures |Bits(t)| == |Counts(t)| > 0
    ensures var counts := Counts(t)[0 := d];
            var s := Stop(Bits(t), counts, d, 0);
            s != -1 ==> Written(counts, s, Size(t) - s) != Counts(Join(t, u, d))
  {
    hide *;
    BitsOfNode(t);
    JoinOneLeaf(t, u, d);
    BitsOfNode(Join(t, u, d));
    var counts := Counts(t)[0 := d];
    StopStarts(Bits(t), counts, d);
    var s := Stop(Bits(t), counts, d, 0);
    if s != -1 { WrittenAt(counts, s, Size(t) - s); }
  }

  lemma JoinOneLeaf(t: Trie, u: Trie, d: nat)
    requires t.Node? && u.Leaf?
    ensures Join(t, u, d) == if d < t.bit then Node(d, t, u) else Node(t.bit, t.left, Join(t.right, u, d))
    ensures Size(t) == Size(t.left) + Size(t.right) && Size(t.left) > 0
  {
  }

  lemma StopStarts(bits: seq<nat>, counts: seq<nat>, d: nat)
    requires |bits| == |counts| > 0
    ensures Stop(bits, counts, d, 0) == 0 <==> d < bits[0]
  {
  }

  lemma WrittenAt(s: seq<nat>, stop: nat, x: nat)
    requires stop <= |s| && |s| > 0
    ensures Written(s, stop, x)[if stop == 0 then 1 else 0] == s[0]
  {
  }

  /** The rest of the merge with a large node of one key, whatever the counts are. */
  method JoinOne(n1: nat, d: nat, bits: array<nat>, counts: array<nat>) returns (completed: bool)
    requires 0 < n1 == bits.Length == counts.Length && bits != counts
    modifies bits, counts
    ensures completed <==> Stop(old(bits[..n1 - 1]), old(counts[..n1 - 1]), d, 0) != -1
    ensures completed ==> counts[..] == Written(old(counts[..n1 - 1]), Stop(old(bits[..n1 - 1]), old(counts[..n1 - 1]), d, 0),
                                                n1 - Stop(old(bits[..n1 - 1]), old(counts[..n1 - 1]), d, 0))
  {
    hide *;
    ghost var b: seq<nat>, c: seq<nat> := bits[..n1 - 1], counts[..n1 - 1];
    var newBits, newCounts := new nat[n1], new nat[n1];
    var i := 0;
    assert newBits[..0] == b[..0] && newCounts[..0] == c[..0];
    StopStep(b, c, d, 0);
    while i < n1 - 1 && bits[i] <= d
      invariant i <= n1 - 1 && bits[..n1 - 1] == b && counts[..n1 - 1] == c && Stop(b, c, d, i) == Stop(b, c, d, 0)
      invariant newBits[..i] == b[..i] && newCounts[..i] == c[..i]
      decreases n1 - i
    {
      var count := counts[i];
      assert bits[i] == b[i] && count == c[i];
      StopStep(b, c, d, i);
      if count == 0 || n1 - 1 < i + count {
        return false;
      }
      CopyEntries(bits, counts, i, i + count, newBits, newCounts, i);
      NextPart(bits[..], n1 - 1, i, i + count);
      NextPart(counts[..], n1 - 1, i, i + count);
      i := i + count;
    }
    assert i < n1 - 1 ==> bits[i] == b[i];
    StopStep(b, c, d, i);
    RestOf(bits, n1 - 1, newBits, i, d, b);
    RestOf(counts, n1 - 1, newCounts, i, n1 - i, c);
    CopyForward(newCounts, 0, n1, counts, 0);
    assert counts[..] == counts[0..n1] && newCounts[..] == newCounts[0..n1];
    CopyForward(newBits, 0, n1, bits, 0);
    return true;
  }

  lemma StopStep(bits: seq<nat>, counts: seq<nat>, d: nat, i: nat)
    requires i <= |bits| == |counts|
    ensures i == |bits| || d < bits[i] ==> Stop(bits, counts, d, i) == i
    ensures i < |bits| && bits[i] <= d && (counts[i] == 0 || |bits| < i + counts[i]) ==> Stop(bits, counts, d, i) == -1
    ensures i < |bits| && bits[i] <= d && counts[i] > 0 && i + counts[i] <= |bits| ==> Stop(bits, counts, d, i) == Stop(bits, counts, d, i + counts[i])
  {
  }

  lemma NextPart(s: seq<nat>, n: nat, i: nat, j: nat)
    requires i <= j <= n <= |s|
    ensures s[..n][..i] + s[i..j] == s[..n][..j]
  {
  }

  method RestOf(src: array<nat>, n: nat, dst: array<nat>, i: nat, x: nat, ghost s: seq<nat>)
    requires src != dst && i <= n <= src.Length && dst.Length == n + 1 && s == src[..n] && dst[..i] == s[..i]
    modifies dst
    ensures dst[..] == Written(s, i, x)
  {
    dst[i] := x;
    assert dst[..i + 1] == s[..i] + [x];
    CopyForward(src, i, n, dst, i + 1);
    assert dst[..] == dst[..i + 1] + dst[i + 1..n + 1];
    assert s[i..] == src[i..n];
  }

  // ------------------------------------------------------------------------------------
  // The merge
  // ------------------------------------------------------------------------------------

  /** The rest of the merge with the counts in place. */
  method JoinExact(ghost t0: Trie, ghost u0: Trie, n1: nat, n2: nat, d: nat,
                   bits: array<nat>, counts: array<nat>, largeBits: array<nat>, largeCounts: array<nat>)
    requires 1 <= n1 == Size(t0) && 1 <= n2 == Size(u0)
    requires n1 + n2 - 1 <= bits.Length == counts.Length && n2 - 1 <= largeBits.Length == largeCounts.Length
    requires bits[..n1 - 1] == Bits(t0) && counts[..n1 - 1] == Counts(t0)
    requires largeBits[..n2 - 1] == Bits(u0) && largeCounts[..n2 - 1] == Counts(u0)
    requires bits != counts && bits != largeBits && bits != largeCounts && counts != largeBits && counts != largeCounts
    modifies bits, counts
    ensures bits[..n1 + n2 - 1] == Bits(Join(t0, u0, d)) && counts[..n1 + n2 - 1] == Counts(Join(t0, u0, d))
  {
    hide *;
    SizesOf(t0);
    SizesOf(u0);
    var newBits, newCounts := new nat[n1 + n2 - 1], new nat[n1 + n2 - 1];
    var i, il, back;
    ghost var t, u;
    i, il, back, t, u := JoinSpines(t0, u0, n1, n2, d, bits, counts, largeBits, largeCounts, newBits, newCounts);
    JoinRest(t0, u0, n1, n2, d, bits, counts, largeBits, largeCounts, newBits, newCounts, i, il, back, t, u);
    CopyForward(newCounts, 0, n1 + n2 - 1, counts, 0);
    CopyForward(newBits, 0, n1 + n2 - 1, bits, 0);
  }

  /** Merges the entries of the large trie into those of the small one.  They are then those of the
      joined trie exactly if the store in front of the loop has stayed within the branch bits, or there
      was no count for it to overwrite, or it has overwritten the first count with itself.  The last
      branch is taken when a count was overwritten; what the loop does is the same. */
  method JoinEntries(ghost t0: Trie, ghost u0: Trie, n1: nat, n2: nat, d: nat,
                     bits: array<nat>, counts: array<nat>, largeBits: array<nat>, largeCounts: array<nat>)
    returns (completed: bool)
    requires 1 <= n1 == Size(t0) && 1 <= n2 == Size(u0)
    requires n1 + n2 - 1 <= bits.Length == counts.Length && n2 - 1 <= largeBits.Length == largeCounts.Length
    requires bits[..n1 - 1] == Bits(t0) && counts[..n1 - 1] == Counts(t0)
    requires largeBits[..n2 - 1] == Bits(u0) && largeCounts[..n2 - 1] == Counts(u0)
    requires bits != counts && bits != largeBits && bits != largeCounts && counts != largeBits && counts != largeCounts
    modifies bits, counts
    ensures completed && bits[..n1 + n2 - 1] == Bits(Join(t0, u0, d)) && counts[..n1 + n2 - 1] == Counts(Join(t0, u0, d))
            <==> n1 < bits.Length || n1 == 1 || d == old(counts[0])
  {
    hide *;
    SizesOf(t0);
    SizesOf(u0);
    var first := counts[0];
    StoreBoundary(largeBits, n2, bits, counts, n1, d);
    if n1 < bits.Length || n1 == 1 || d == first {
      StillCounts(counts[..], old(counts[..]), n1, bits.Length, d);
      JoinExact(t0, u0, n1, n2, d, bits, counts, largeBits, largeCounts);
      completed := true;
    } else {
      OverwrittenCounts(t0, u0, d, old(counts[..]), counts[..]);
      completed := JoinOne(n1, d, bits, counts);
      assert counts[..n1 + n2 - 1] == counts[..];
    }
  }

  lemma StillCounts(s: seq<nat>, was: seq<nat>, n1: nat, len: nat, d: nat)
    requires 0 < n1 <= len == |s| == |was| && s == (if n1 < len then was else was[0 := d])
    requires n1 < len || n1 == 1 || d == was[0]
    ensures s[..n1 - 1] == was[..n1 - 1]
  {
  }

  lemma NodeAndLeaf(t: Trie, u: Trie)
    ensures 1 < Size(t) ==> t.Node?
    ensures Size(u) == 1 ==> u.Leaf?
  {
  }

  lemma OverwrittenCounts(t: Trie, u: Trie, d: nat, was: seq<nat>, s: seq<nat>)
    requires 1 < Size(t) == |was| && Size(u) == 1 && was[..|was| - 1] == Counts(t) && s == was[0 := d] && d != was[0]
    ensures |Bits(t)| == |Counts(t)| == |s| - 1
    ensures var stop := Stop(Bits(t), s[..|s| - 1], d, 0); stop != -1 ==> Written(s[..|s| - 1], stop, Size(t) - stop) != Counts(Join(t, u, d))
  {
    hide *;
    NodeAndLeaf(t, u);
    BitsOfNode(t);
    OverwrittenDiffers(t, u, d);
    assert s[..|s| - 1] == Counts(t)[0 := d];
    assert was[0] == was[..|was| - 1][0];
  }

  /** Three keys in a node of four slots, and one key that follows: the joined trie has the left counts
      3, 2 and 1, the merge leaves 3, 0 and 1. */
  lemma FullNodeInput()
    ensures var t := Node(1, Node(2, Leaf([false, false, false]), Leaf([false, false, true])), Leaf([false, true, false]));
            var u := Leaf([true, false, false]);
            && Adjacent(t, u, 0, 3) && Size(t) == 3 && Bits(t) == [1, 2] && Counts(t) == [2, 1]
            && Contents(t) == [[false, false, false], [false, false, true], [false, true, false]]
            && Counts(Join(t, u, 0)) == [3, 2, 1]
            && Stop([1, 2], [0, 1], 0, 0) == 0 && Written([0, 1], 0, 3) == [3, 0, 1]
  {
  }

  /** An input where the store happens to leave the first count as it is. */
  lemma FullNodeLuck()
    ensures var t := Node(0, Leaf([false, false, false]), Node(2, Leaf([true, false, false]), Leaf([true, false, true])));
            var u := Leaf([true, true, false]);
            Adjacent(t, u, 1, 3) && Size(t) == 3 && Counts(t) == [1, 1] && Counts(t)[0 := 1] == Counts(t)
  {
    var right := Node(2, Leaf([true, false, false]), Leaf([true, false, true]));
    assert WellFormed(right, 3) && Counts(right) == [1];
    var t := Node(0, Leaf([false, false, false]), right);
    assert WellFormed(t, 3);
    assert Last(t) == [true, false, true];
    hide WellFormed;
  }
}
