/** The array work of `SplitBlindiNode` and `MergeBlindiNodes` on preorder entries. */
module SubTrieSplit {
  import opened Keys
  import opened NodeArrays
  import opened Trie
  import opened TrieEdits
  import opened Preorder
  import opened PreorderSplit

  /** A step to the right: the branch and its left side go to the small half. */
  method SplitRight(ghost t: Trie, mid: nat, ghost u: Trie, ghost m: nat, bits: array<nat>, counts: array<nat>,
                    smallBits: array<nat>, smallCounts: array<nat>, curI: nat, smallI: nat,
                    ghost hB: seq<nat>, ghost hC: seq<nat>, ghost path: seq<nat>, ghost lefts: seq<nat>)
    requires 1 <= mid && 2 * mid - 1 <= bits.Length == counts.Length && mid <= smallBits.Length == smallCounts.Length
    requires smallBits != bits && smallBits != counts && smallCounts != bits && smallCounts != counts && smallBits != smallCounts
    requires u.Node? && Size(u.left) < m && smallI == mid - m && curI + Size(u) <= 2 * mid && counts[curI] == Size(u.left) && m <= mid
    requires Descent(t, mid, u, m, bits[..2 * mid - 1], counts[..2 * mid - 1], curI, smallBits[..smallI], smallCounts[..smallI], hB, hC, path, lefts)
    modifies smallBits, smallCounts
    ensures Descent(t, mid, u.right, m - Size(u.left), bits[..2 * mid - 1], counts[..2 * mid - 1], curI + Size(u.left),
                    smallBits[..smallI + Size(u.left)], smallCounts[..smallI + Size(u.left)], hB, hC, path + [curI], lefts)
  {
    hide *;
    SizesOf(u);
    var count := counts[curI];
    SlicesOfPrefix(bits[..], 2 * mid - 1, curI, curI + count);
    SlicesOfPrefix(counts[..], 2 * mid - 1, curI, curI + count);
    DescentRight(t, mid, u, m, bits[..2 * mid - 1], counts[..2 * mid - 1], curI, smallBits[..smallI], smallCounts[..smallI], hB, hC, path, lefts);
    CopyEntries(bits, counts, curI, curI + count, smallBits, smallCounts, smallI);
  }

  /** The first loop of the split: goes down to the divider, the branch whose left side ends at
      the middle, and copies everything but the branches passed to the left.  Those keep a smaller
      left count, which the second loop computes from the recorded path. */
  method SplitDown(ghost t: Trie, mid: nat, bits: array<nat>, counts: array<nat>,
                   smallBits: array<nat>, smallCounts: array<nat>, largeBits: array<nat>, largeCounts: array<nat>)
    returns (treeTraverse: seq<nat>, largeTreeTraverse: seq<nat>, movers: nat, ghost hB: seq<nat>, ghost hC: seq<nat>, ghost cur: nat)
    requires 1 <= mid && Size(t) == 2 * mid
    requires 2 * mid - 1 <= bits.Length == counts.Length
    requires mid <= smallBits.Length == smallCounts.Length == largeBits.Length == largeCounts.Length
    requires bits[..2 * mid - 1] == Bits(t) && counts[..2 * mid - 1] == Counts(t)
    requires smallBits != bits && smallBits != counts && smallCounts != bits && smallCounts != counts
    requires largeBits != bits && largeBits != counts && largeCounts != bits && largeCounts != counts
    requires smallBits != smallCounts && largeBits != largeCounts
    requires largeBits != smallBits && largeBits != smallCounts && largeCounts != smallBits && largeCounts != smallCounts
    modifies smallBits, smallCounts, largeBits, largeCounts
    ensures smallBits[..mid - 1] == Bits(Take(t, mid)) && smallCounts[..mid - 1] == Counts(Take(t, mid))
    ensures |hB| == |hC| == |largeTreeTraverse| <= mid - 1
    ensures Bits(Drop(t, mid)) == hB + largeBits[|hB|..mid - 1]
    ensures Counts(Drop(t, mid)) == hC + largeCounts[|hC|..mid - 1]
    ensures Path(treeTraverse, largeTreeTraverse, bits[..2 * mid - 1], counts[..2 * mid - 1], hB, hC, movers, cur)
  {
    hide *;
    var last := 2 * mid - 1;
    var curI: nat, smallI: nat, largeEnd: nat, keyPtrPos: nat := 0, 0, last, 0;
    treeTraverse, largeTreeTraverse, hB, hC := [], [], [], [];
    ghost var u, m := t, mid;
    ghost var b: seq<nat>, c: seq<nat> := bits[..last], counts[..last];
    DescentStarts(t, mid);
    EmptyTails(bits[..], counts[..], largeBits[..], largeCounts[..], mid);
    assert smallBits[..0] == [] && smallCounts[..0] == [];
    while true
      invariant smallI <= mid - 1
      invariant Descent(t, mid, u, m, b, c, curI, smallBits[..smallI], smallCounts[..smallI], hB, hC, treeTraverse, largeTreeTraverse)
      invariant keyPtrPos + m == mid && largeEnd == curI + Size(u) - 1 && smallI == mid - m
      invariant Tails(bits[..], counts[..], largeBits[..], largeCounts[..], largeEnd, mid)
      decreases Size(u)
    {
      DescentHere(t, mid, u, m, b, c, curI, smallBits[..smallI], smallCounts[..smallI], hB, hC, treeTraverse, largeTreeTraverse);
      var count := counts[curI];
      if keyPtrPos + count <= mid - 1 {
        SplitRight(t, mid, u, m, bits, counts, smallBits, smallCounts, curI, smallI, hB, hC, treeTraverse, largeTreeTraverse);
        smallI := smallI + count;
        treeTraverse := treeTraverse + [curI];
        keyPtrPos := keyPtrPos + count;
        curI := curI + count;
        u, m := u.right, m - count;
      } else if keyPtrPos + count > mid {
        DescentLeft(t, mid, u, m, b, c, curI, smallBits[..smallI], smallCounts[..smallI], hB, hC, treeTraverse, largeTreeTraverse);
        CopyEntriesDown(bits, counts, curI + count, largeEnd, largeBits, largeCounts, mid);
        largeEnd := curI + count;
        hB, hC := hB + [u.bit], hC + [Size(u.left) - m];
        largeTreeTraverse := largeTreeTraverse + [curI];
        treeTraverse := treeTraverse + [curI];
        curI := curI + 1;
        u := u.left;
      } else {
        SplitDivider(t, mid, u, bits, counts, smallBits, smallCounts, largeBits, largeCounts,
                     curI, smallI, largeEnd, treeTraverse, largeTreeTraverse, hB, hC);
        movers, cur := count, curI;
        return;
      }
    }
  }

  /** The divider: its left side completes the small half, its right side goes to the large one. */
  method SplitDivider(ghost t: Trie, mid: nat, ghost u: Trie, bits: array<nat>, counts: array<nat>,
                      smallBits: array<nat>, smallCounts: array<nat>, largeBits: array<nat>, largeCounts: array<nat>,
                      curI: nat, smallI: nat, largeEnd: nat,
                      ghost path: seq<nat>, ghost lefts: seq<nat>, ghost hB: seq<nat>, ghost hC: seq<nat>)
    requires u.Node? && 1 <= mid && 2 * mid - 1 <= bits.Length == counts.Length && Size(t) == 2 * mid
    requires smallI <= mid - 1 < smallBits.Length == smallCounts.Length == largeBits.Length == largeCounts.Length
    requires smallBits != bits && smallBits != counts && smallCounts != bits && smallCounts != counts
    requires largeBits != bits && largeBits != counts && largeCounts != bits && largeCounts != counts
    requires smallBits != smallCounts && largeBits != largeCounts
    requires largeBits != smallBits && largeBits != smallCounts && largeCounts != smallBits && largeCounts != smallCounts
    requires Descent(t, mid, u, Size(u.left), bits[..2 * mid - 1], counts[..2 * mid - 1], curI,
                     smallBits[..smallI], smallCounts[..smallI], hB, hC, path, lefts)
    requires Tails(bits[..], counts[..], largeBits[..], largeCounts[..], largeEnd, mid)
    requires largeEnd == curI + Size(u) - 1 && smallI == mid - Size(u.left)
    modifies smallBits, smallCounts, largeBits, largeCounts
    ensures smallBits[..mid - 1] == Bits(Take(t, mid)) && smallCounts[..mid - 1] == Counts(Take(t, mid))
    ensures |hB| == |hC| == |lefts| <= mid - 1
    ensures Bits(Drop(t, mid)) == hB + largeBits[|hB|..mid - 1]
    ensures Counts(Drop(t, mid)) == hC + largeCounts[|hC|..mid - 1]
    ensures Path(path, lefts, bits[..2 * mid - 1], counts[..2 * mid - 1], hB, hC, Size(u.left), curI)
  {
    hide *;
    ghost var b: seq<nat>, c: seq<nat>, m := bits[..2 * mid - 1], counts[..2 * mid - 1], Size(u.left);
    DescentHere(t, mid, u, m, b, c, curI, smallBits[..smallI], smallCounts[..smallI], hB, hC, path, lefts);
    DescentEnds(t, mid, u, m, b, c, curI, smallBits[..smallI], smallCounts[..smallI], hB, hC, path, lefts);
    var count := counts[curI];
    SlicesOfPrefix(bits[..], 2 * mid - 1, curI, curI + count);
    SlicesOfPrefix(counts[..], 2 * mid - 1, curI, curI + count);
    CopyEntries(bits, counts, curI + 1, curI + count, smallBits, smallCounts, smallI);
    CopyEntriesDown(bits, counts, curI + count, largeEnd, largeBits, largeCounts, mid);
    TailsAre(bits[..], counts[..], largeBits[..], largeCounts[..], curI + count, mid);
  }

  /** The entries from `end` on stand in the large half, `mid` positions lower. */
  ghost predicate Tails(bits: seq<nat>, counts: seq<nat>, toBits: seq<nat>, toCounts: seq<nat>, end: nat, mid: nat)
  {
    && 1 <= mid <= end <= 2 * mid - 1 <= |bits| == |counts| && mid <= |toBits| == |toCounts|
    && toBits[end - mid..mid - 1] == bits[end..2 * mid - 1]
    && toCounts[end - mid..mid - 1] == counts[end..2 * mid - 1]
  }

  lemma EmptyTails(bits: seq<nat>, counts: seq<nat>, toBits: seq<nat>, toCounts: seq<nat>, mid: nat)
    requires 1 <= mid && 2 * mid - 1 <= |bits| == |counts| && mid <= |toBits| == |toCounts|
    ensures Tails(bits, counts, toBits, toCounts, 2 * mid - 1, mid)
  {
  }

  lemma TailsAre(bits: seq<nat>, counts: seq<nat>, toBits: seq<nat>, toCounts: seq<nat>, end: nat, mid: nat)
    requires Tails(bits, counts, toBits, toCounts, end, mid)
    ensures 1 <= mid <= end <= 2 * mid - 1 <= |bits| == |counts| && mid <= |toBits| == |toCounts|
    ensures toBits[end - mid..mid - 1] == bits[..2 * mid - 1][end..]
    ensures toCounts[end - mid..mid - 1] == counts[..2 * mid - 1][end..]
  {
  }

  lemma SlicesOfPrefix(s: seq<nat>, n: nat, i: nat, j: nat)
    requires i < j <= n <= |s|
    ensures s[..n][i..j] == s[i..j] && s[..n][i + 1..j] == s[i + 1..j] && s[..n][j..] == s[j..n]
    ensures s[..n][i] == s[i]
  {
  }

  /** Appends the entries `lo..hi` to the first `at` entries of another node. */
  method CopyEntries(bits: array<nat>, counts: array<nat>, lo: nat, hi: nat, toBits: array<nat>, toCounts: array<nat>, at: nat)
    requires lo <= hi <= bits.Length == counts.Length && at + (hi - lo) <= toBits.Length == toCounts.Length
    requires toBits != bits && toBits != counts && toCounts != bits && toCounts != counts && toBits != toCounts
    modifies toBits, toCounts
    ensures toBits[..at + (hi - lo)] == old(toBits[..at]) + bits[lo..hi]
    ensures toCounts[..at + (hi - lo)] == old(toCounts[..at]) + counts[lo..hi]
    ensures toBits[at + (hi - lo)..] == old(toBits[at + (hi - lo)..])
    ensures toCounts[at + (hi - lo)..] == old(toCounts[at + (hi - lo)..])
  {
    CopyForward(bits, lo, hi, toBits, at);
    CopyForward(counts, lo, hi, toCounts, at);
  }

  /** Puts the entries `lo..hi` in front of those already in place. */
  method CopyEntriesDown(bits: array<nat>, counts: array<nat>, lo: nat, hi: nat,
                         toBits: array<nat>, toCounts: array<nat>, mid: nat)
    requires mid <= lo <= hi && Tails(bits[..], counts[..], toBits[..], toCounts[..], hi, mid)
    requires toBits != bits && toBits != counts && toCounts != bits && toCounts != counts && toBits != toCounts
    modifies toBits, toCounts
    ensures Tails(bits[..], counts[..], toBits[..], toCounts[..], lo, mid)
  {
    CopyInFront(bits, lo, hi, toBits, mid);
    CopyInFront(counts, lo, hi, toCounts, mid);
  }

  method CopyInFront(src: array<nat>, lo: nat, hi: nat, dst: array<nat>, mid: nat)
    requires src != dst && 1 <= mid <= lo <= hi <= 2 * mid - 1 <= src.Length && mid <= dst.Length
    requires dst[..][hi - mid..mid - 1] == src[..][hi..2 * mid - 1]
    modifies dst
    ensures dst[..][lo - mid..mid - 1] == src[..][lo..2 * mid - 1]
  {
    hide *;
    CopyBackward(src, lo, hi, dst, mid);
    SameFrom(dst[..], old(dst[..]), hi - mid, mid - 1);
    InFront(dst[..], src[..], lo, hi, 2 * mid - 1, mid);
  }

  lemma SameFrom(d: seq<nat>, d0: seq<nat>, i: nat, j: nat)
    requires i <= j <= |d| == |d0| && d[i..] == d0[i..]
    ensures d[i..j] == d0[i..j]
  {
    assert d[i..j] == d[i..][..j - i] && d0[i..j] == d0[i..][..j - i];
  }

  lemma InFront(d: seq<nat>, s: seq<nat>, lo: nat, hi: nat, last: nat, shift: nat)
    requires shift <= lo <= hi <= last <= |s| && last - shift <= |d|
    requires d[lo - shift..hi - shift] == s[lo..hi] && d[hi - shift..last - shift] == s[hi..last]
    ensures d[lo - shift..last - shift] == s[lo..last]
  {
    assert d[lo - shift..last - shift] == d[lo - shift..hi - shift] + d[hi - shift..last - shift];
    assert s[lo..last] == s[lo..hi] + s[hi..last];
  }

  /** The second loop of the split: back up the path, every branch that went to the large half
      gets its entry, with the keys that moved to the small half taken off its left count.  The
      counter is unsigned in the source; the loop ends because it stops at the topmost such branch. */
  method FillLargeSpine(path: seq<nat>, lefts: seq<nat>, movers: nat, bits: array<nat>, counts: array<nat>, last: nat,
                        largeBits: array<nat>, largeCounts: array<nat>, ghost hB: seq<nat>, ghost hC: seq<nat>, ghost cur: nat)
    requires lefts != [] && |lefts| == |hB| == |hC|
    requires last <= bits.Length == counts.Length && |lefts| <= largeBits.Length == largeCounts.Length
    requires largeBits != bits && largeBits != counts && largeCounts != bits && largeCounts != counts
    requires largeBits != largeCounts
    requires Path(path, lefts, bits[..last], counts[..last], hB, hC, movers, cur)
    modifies largeBits, largeCounts
    ensures largeBits[..|lefts|] == hB && largeBits[|lefts|..] == old(largeBits[|lefts|..])
    ensures largeCounts[..|lefts|] == hC && largeCounts[|lefts|..] == old(largeCounts[|lefts|..])
  {
    hide *;
    var sum, j, n := movers, |path|, |lefts|;
    ghost var b: seq<nat>, c: seq<nat>, top := bits[..last], counts[..last], cur;
    assert path[..j] == path && lefts[..n] == lefts && hB[..n] == hB && hC[..n] == hC;
    while true
      invariant 1 <= n <= |lefts| && j <= |path|
      invariant Path(path[..j], lefts[..n], b, c, hB[..n], hC[..n], sum, top)
      invariant forall i :: n <= i < |lefts| ==> largeBits[i] == hB[i] && largeCounts[i] == hC[i]
      invariant forall i :: |lefts| <= i < largeBits.Length ==> largeBits[i] == old(largeBits[i]) && largeCounts[i] == old(largeCounts[i])
      decreases j
    {
      PathUp(path, lefts, b, c, hB, hC, sum, top, j, n);
      j := j - 1;
      var pos := path[j];
      top := pos;
      if pos == lefts[n - 1] {
        largeBits[n - 1] := bits[pos];
        largeCounts[n - 1] := counts[pos] - sum;
        if n == 1 {
          break;
        }
        n := n - 1;
      } else {
        sum := sum + counts[pos];
      }
    }
  }

  /** Splits the entries of a trie of `2 * mid` keys into those of its two halves. */
  method SplitEntries(ghost t: Trie, mid: nat, bits: array<nat>, counts: array<nat>,
                      smallBits: array<nat>, smallCounts: array<nat>, largeBits: array<nat>, largeCounts: array<nat>)
    requires 1 <= mid && Size(t) == 2 * mid
    requires 2 * mid - 1 <= bits.Length == counts.Length
    requires mid <= smallBits.Length == smallCounts.Length == largeBits.Length == largeCounts.Length
    requires bits[..2 * mid - 1] == Bits(t) && counts[..2 * mid - 1] == Counts(t)
    requires smallBits != bits && smallBits != counts && smallCounts != bits && smallCounts != counts
    requires largeBits != bits && largeBits != counts && largeCounts != bits && largeCounts != counts
    requires smallBits != smallCounts && largeBits != largeCounts
    requires largeBits != smallBits && largeBits != smallCounts && largeCounts != smallBits && largeCounts != smallCounts
    modifies smallBits, smallCounts, largeBits, largeCounts
    ensures smallBits[..mid - 1] == Bits(Take(t, mid)) && smallCounts[..mid - 1] == Counts(Take(t, mid))
    ensures largeBits[..mid - 1] == Bits(Drop(t, mid)) && largeCounts[..mid - 1] == Counts(Drop(t, mid))
  {
    hide *;
    ghost var hB, hC, cur;
    var treeTraverse, largeTreeTraverse, movers;
    treeTraverse, largeTreeTraverse, movers, hB, hC, cur :=
      SplitDown(t, mid, bits, counts, smallBits, smallCounts, largeBits, largeCounts);
    if largeTreeTraverse == [] {
      assert hB == [] && hC == [];
      return;
    }
    label Copied:
    FillLargeSpine(treeTraverse, largeTreeTraverse, movers, bits, counts, 2 * mid - 1, largeBits, largeCounts, hB, hC, cur);
    SpineAndRest(largeBits[..], old@Copied(largeBits[..]), hB, mid - 1);
    SpineAndRest(largeCounts[..], old@Copied(largeCounts[..]), hC, mid - 1);
  }

  lemma SpineAndRest(d: seq<nat>, d0: seq<nat>, h: seq<nat>, n: nat)
    requires |h| <= n <= |d| == |d0| && d[..|h|] == h && d[|h|..] == d0[|h|..]
    ensures d[..n] == h + d0[|h|..n]
  {
    SameFrom(d, d0, |h|, n);
    assert d[..n] == d[..|h|] + d[|h|..n];
  }
}
