/** What splitting at the middle leaf and joining at a boundary bit do to the preorder entries. */
module PreorderSplit {
  import opened Trie
  import opened TrieEdits
  import opened Preorder

  /** The entries of `u` are a slice of the two arrays. */
  ghost predicate Window(u: Trie, bits: seq<nat>, counts: seq<nat>, p: nat)
  {
    && |bits| == |counts| && p + Size(u) - 1 <= |bits|
    && bits[p..p + Size(u) - 1] == Bits(u)
    && counts[p..p + Size(u) - 1] == Counts(u)
  }

  lemma WindowSides(u: Trie, bits: seq<nat>, counts: seq<nat>, p: nat)
    requires Window(u, bits, counts, p) && u.Node?
    ensures p < |bits| && bits[p] == u.bit && counts[p] == Size(u.left)
    ensures p + Size(u) - 1 <= |bits|
    ensures bits[p..p + Size(u.left)] == [u.bit] + Bits(u.left)
    ensures counts[p..p + Size(u.left)] == [Size(u.left)] + Counts(u.left)
    ensures Window(u.left, bits, counts, p + 1)
    ensures Window(u.right, bits, counts, p + Size(u.left))
  {
    hide *;
    WindowSlice(u, bits, counts, p);
    BitsOfNode(u);
    SliceParts(bits, p, u.bit, Bits(u.left), Bits(u.right));
    SliceParts(counts, p, Size(u.left), Counts(u.left), Counts(u.right));
    SliceWindow(u.left, bits, counts, p + 1);
    SliceWindow(u.right, bits, counts, p + Size(u.left));
  }

  lemma SliceWindow(u: Trie, bits: seq<nat>, counts: seq<nat>, p: nat)
    requires |Bits(u)| == |Counts(u)| == Size(u) - 1 && |bits| == |counts| && p + |Bits(u)| <= |bits|
    requires bits[p..p + |Bits(u)|] == Bits(u) && counts[p..p + |Counts(u)|] == Counts(u)
    ensures Window(u, bits, counts, p)
  {
    hide Contents, Bits, Counts;
  }

  lemma BitsOfNode(u: Trie)
    requires u.Node?
    ensures Bits(u) == [u.bit] + Bits(u.left) + Bits(u.right)
    ensures Counts(u) == [Size(u.left)] + Counts(u.left) + Counts(u.right)
    ensures |Bits(u.left)| == |Counts(u.left)| == Size(u.left) - 1
    ensures |Bits(u.right)| == |Counts(u.right)| == Size(u.right) - 1
    ensures 1 <= Size(u.left) && 1 <= Size(u.right) && Size(u) == Size(u.left) + Size(u.right)
  {
  }

  lemma WindowSlice(u: Trie, bits: seq<nat>, counts: seq<nat>, p: nat)
    requires Window(u, bits, counts, p)
    ensures |bits| == |counts| && p + |Bits(u)| <= |bits|
    ensures bits[p..p + |Bits(u)|] == Bits(u)
    ensures counts[p..p + |Counts(u)|] == Counts(u)
  {
    hide Contents, Bits, Counts;
  }

  lemma SliceParts(s: seq<nat>, p: nat, x: nat, l: seq<nat>, r: seq<nat>)
    requires p + 1 + |l| + |r| <= |s| && s[p..p + 1 + |l| + |r|] == [x] + l + r
    ensures s[p] == x
    ensures s[p..p + 1 + |l|] == [x] + l
    ensures s[p + 1..p + 1 + |l|] == l
    ensures s[p + 1 + |l|..p + 1 + |l| + |r|] == r
  {
    var w := [x] + l + r;
    SliceOfSlice(s, p, p + |w|, 0, 1 + |l|);
    SliceOfSlice(s, p, p + |w|, 1, 1 + |l|);
    SliceOfSlice(s, p, p + |w|, 1 + |l|, |w|);
    assert s[p] == s[p..p + |w|][0];
    assert w[0..1 + |l|] == [x] + l && w[1..1 + |l|] == l && w[1 + |l|..|w|] == r;
  }

  lemma SliceOfSlice(s: seq<nat>, p: nat, q: nat, i: nat, j: nat)
    requires p <= q <= |s| && i <= j <= q - p
    ensures s[p..q][i..j] == s[p + i..p + j]
  {
    forall k | 0 <= k < j - i
      ensures s[p..q][i..j][k] == s[p + i..p + j][k]
    {
      assert s[p..q][i + k] == s[p + i + k];
    }
  }

  // ------------------------------------------------------------------------------------
  // Splitting
  // ------------------------------------------------------------------------------------

  /** On the way down to the divider: `u` is the current branch and the divider cuts off its
      first `m` keys.  The entries of the small half are `sB`, `sC` and what `u` adds; those of
      the large half are `hB`, `hC`, what `u` adds, and everything behind `u`. */
  ghost predicate Splitting(t: Trie, mid: nat, u: Trie, m: nat, bits: seq<nat>, counts: seq<nat>, cur: nat,
                            sB: seq<nat>, sC: seq<nat>, hB: seq<nat>, hC: seq<nat>)
  {
    && 1 <= mid < Size(t) && 1 <= m < Size(u)
    && Window(u, bits, counts, cur)
    && Bits(Take(t, mid)) == sB + Bits(Take(u, m))
    && Counts(Take(t, mid)) == sC + Counts(Take(u, m))
    && Bits(Drop(t, mid)) == hB + Bits(Drop(u, m)) + bits[cur + Size(u) - 1..]
    && Counts(Drop(t, mid)) == hC + Counts(Drop(u, m)) + counts[cur + Size(u) - 1..]
    && |sB| == |sC| && |hB| == |hC| && |bits| == Size(t) - 1
  }

  lemma SplittingStarts(t: Trie, mid: nat)
    requires 1 <= mid < Size(t)
    ensures Splitting(t, mid, t, mid, Bits(t), Counts(t), 0, [], [], [], [])
  {
    var n := Size(t) - 1;
    Ends(Bits(t), Bits(Take(t, mid)), Bits(Drop(t, mid)));
    Ends(Counts(t), Counts(Take(t, mid)), Counts(Drop(t, mid)));
  }

  lemma Ends(s: seq<nat>, a: seq<nat>, b: seq<nat>)
    ensures s[0..|s|] == s && a == [] + a && b == [] + b + s[|s|..]
  {
  }

  lemma SplittingHere(t: Trie, mid: nat, u: Trie, m: nat, bits: seq<nat>, counts: seq<nat>, cur: nat,
                      sB: seq<nat>, sC: seq<nat>, hB: seq<nat>, hC: seq<nat>)
    requires Splitting(t, mid, u, m, bits, counts, cur, sB, sC, hB, hC)
    ensures u.Node? && 1 <= m < Size(u) && |bits| == |counts| == Size(t) - 1
    ensures cur < |bits| && bits[cur] == u.bit && counts[cur] == Size(u.left)
    ensures 1 <= Size(u.left) && 1 <= Size(u.right) && Size(u) == Size(u.left) + Size(u.right)
    ensures cur + Size(u) - 1 <= |bits|
    ensures |sB| == |sC| == mid - m && |hB| == |hC| == cur + m - mid
    ensures |Bits(u.left)| == |Counts(u.left)| == Size(u.left) - 1
    ensures bits[cur..cur + Size(u.left)] == [u.bit] + Bits(u.left)
    ensures counts[cur..cur + Size(u.left)] == [Size(u.left)] + Counts(u.left)
  {
    hide Contents, Bits, Counts;
    WindowSides(u, bits, counts, cur);
    BitsOfNode(u);
  }

  /** One array on the way down: `a` and `d` are the entries of the two halves. */
  ghost predicate Halves(s: seq<nat>, end: nat, a: seq<nat>, d: seq<nat>, sS: seq<nat>, hS: seq<nat>, ta: seq<nat>, td: seq<nat>)
  {
    end <= |s| && a == sS + ta && d == hS + td + s[end..]
  }

  lemma SplittingHalves(t: Trie, mid: nat, u: Trie, m: nat, bits: seq<nat>, counts: seq<nat>, cur: nat,
                        sB: seq<nat>, sC: seq<nat>, hB: seq<nat>, hC: seq<nat>)
    requires 1 <= mid < Size(t) && 1 <= m < Size(u) && Window(u, bits, counts, cur)
    requires |sB| == |sC| && |hB| == |hC| && |bits| == Size(t) - 1
    ensures Splitting(t, mid, u, m, bits, counts, cur, sB, sC, hB, hC) <==>
            && Halves(bits, cur + Size(u) - 1, Bits(Take(t, mid)), Bits(Drop(t, mid)), sB, hB, Bits(Take(u, m)), Bits(Drop(u, m)))
            && Halves(counts, cur + Size(u) - 1, Counts(Take(t, mid)), Counts(Drop(t, mid)), sC, hC, Counts(Take(u, m)), Counts(Drop(u, m)))
  {
    hide Contents, Bits, Counts, Take, Drop;
  }

  /** The divider lies on the right: the root and its left side belong to the small half. */
  lemma SplittingRight(t: Trie, mid: nat, u: Trie, m: nat, bits: seq<nat>, counts: seq<nat>, cur: nat,
                       sB: seq<nat>, sC: seq<nat>, hB: seq<nat>, hC: seq<nat>)
    requires Splitting(t, mid, u, m, bits, counts, cur, sB, sC, hB, hC)
    requires u.Node? && Size(u.left) < m
    ensures Splitting(t, mid, u.right, m - Size(u.left), bits, counts, cur + Size(u.left),
                      sB + ([u.bit] + Bits(u.left)), sC + ([Size(u.left)] + Counts(u.left)), hB, hC)
  {
    hide *;
    SplittingHere(t, mid, u, m, bits, counts, cur, sB, sC, hB, hC);
    SplittingWindow(t, mid, u, m, bits, counts, cur, sB, sC, hB, hC);
    SplittingHalves(t, mid, u, m, bits, counts, cur, sB, sC, hB, hC);
    WindowSides(u, bits, counts, cur);
    TakeDropRight(u, m);
    var r, k := u.right, m - Size(u.left);
    HalvesRight(bits, cur + Size(u) - 1, Bits(Take(t, mid)), Bits(Drop(t, mid)), sB, hB, u.bit, Bits(u.left), Bits(Take(r, k)), Bits(Drop(r, k)));
    HalvesRight(counts, cur + Size(u) - 1, Counts(Take(t, mid)), Counts(Drop(t, mid)), sC, hC, Size(u.left), Counts(u.left),
                Counts(Take(r, k)), Counts(Drop(r, k)));
    SplittingHalves(t, mid, r, k, bits, counts, cur + Size(u.left),
                    sB + ([u.bit] + Bits(u.left)), sC + ([Size(u.left)] + Counts(u.left)), hB, hC);
  }

  lemma SplittingWindow(t: Trie, mid: nat, u: Trie, m: nat, bits: seq<nat>, counts: seq<nat>, cur: nat,
                        sB: seq<nat>, sC: seq<nat>, hB: seq<nat>, hC: seq<nat>)
    requires Splitting(t, mid, u, m, bits, counts, cur, sB, sC, hB, hC)
    ensures Window(u, bits, counts, cur) && 1 <= mid < Size(t) && |bits| == |counts|
  {
    hide Contents, Bits, Counts, Take, Drop;
  }

  lemma TakeDropRight(u: Trie, m: nat)
    requires u.Node? && Size(u.left) < m < Size(u)
    ensures Size(u) == Size(u.left) + Size(u.right)
    ensures var r, k := u.right, m - Size(u.left);
            && Bits(Take(u, m)) == [u.bit] + Bits(u.left) + Bits(Take(r, k)) && Bits(Drop(u, m)) == Bits(Drop(r, k))
            && Counts(Take(u, m)) == [Size(u.left)] + Counts(u.left) + Counts(Take(r, k)) && Counts(Drop(u, m)) == Counts(Drop(r, k))
  {
    hide *;
    BitsOfNode(u);
    CutRight(u, m);
    BitsOfNode(Take(u, m));
  }

  lemma CutRight(u: Trie, m: nat)
    requires u.Node? && Size(u.left) < m < Size(u) == Size(u.left) + Size(u.right)
    ensures Take(u, m) == Node(u.bit, u.left, Take(u.right, m - Size(u.left))) && Drop(u, m) == Drop(u.right, m - Size(u.left))
  {
  }

  lemma HalvesRight(s: seq<nat>, end: nat, a: seq<nat>, d: seq<nat>, sS: seq<nat>, hS: seq<nat>,
                    x: nat, l: seq<nat>, tr: seq<nat>, dr: seq<nat>)
    requires Halves(s, end, a, d, sS, hS, [x] + l + tr, dr)
    ensures Halves(s, end, a, d, sS + ([x] + l), hS, tr, dr)
  {
    assert sS + ([x] + l + tr) == sS + ([x] + l) + tr;
  }

  /** The divider lies on the left: the root and its right side belong to the large half, and the
      root keeps the left keys that the divider leaves it. */
  lemma SplittingLeft(t: Trie, mid: nat, u: Trie, m: nat, bits: seq<nat>, counts: seq<nat>, cur: nat,
                      sB: seq<nat>, sC: seq<nat>, hB: seq<nat>, hC: seq<nat>)
    requires Splitting(t, mid, u, m, bits, counts, cur, sB, sC, hB, hC)
    requires u.Node? && m < Size(u.left)
    ensures Splitting(t, mid, u.left, m, bits, counts, cur + 1, sB, sC, hB + [u.bit], hC + [Size(u.left) - m])
  {
    hide *;
    SplittingHere(t, mid, u, m, bits, counts, cur, sB, sC, hB, hC);
    SplittingWindow(t, mid, u, m, bits, counts, cur, sB, sC, hB, hC);
    SplittingHalves(t, mid, u, m, bits, counts, cur, sB, sC, hB, hC);
    WindowSides(u, bits, counts, cur);
    WindowSlice(u.right, bits, counts, cur + Size(u.left));
    TakeDropLeft(u, m);
    var l, end := u.left, cur + Size(u.left);
    HalvesLeft(bits, end, Bits(Take(t, mid)), Bits(Drop(t, mid)), sB, hB, u.bit, Bits(Take(l, m)), Bits(Drop(l, m)), Bits(u.right));
    HalvesLeft(counts, end, Counts(Take(t, mid)), Counts(Drop(t, mid)), sC, hC, Size(l) - m, Counts(Take(l, m)), Counts(Drop(l, m)), Counts(u.right));
    SplittingHalves(t, mid, l, m, bits, counts, cur + 1, sB, sC, hB + [u.bit], hC + [Size(l) - m]);
  }

  lemma TakeDropLeft(u: Trie, m: nat)
    requires u.Node? && 1 <= m < Size(u.left)
    ensures Size(u) == Size(u.left) + Size(u.right)
    ensures |Bits(u.right)| == |Counts(u.right)| == Size(u.right) - 1
    ensures var l := u.left;
            && Bits(Take(u, m)) == Bits(Take(l, m)) && Bits(Drop(u, m)) == [u.bit] + Bits(Drop(l, m)) + Bits(u.right)
            && Counts(Take(u, m)) == Counts(Take(l, m)) && Counts(Drop(u, m)) == [Size(l) - m] + Counts(Drop(l, m)) + Counts(u.right)
  {
    hide Contents;
  }

  lemma HalvesLeft(s: seq<nat>, end: nat, a: seq<nat>, d: seq<nat>, sS: seq<nat>, hS: seq<nat>,
                   y: nat, tl: seq<nat>, dl: seq<nat>, r: seq<nat>)
    requires Halves(s, end + |r|, a, d, sS, hS, tl, [y] + dl + r)
    requires s[end..end + |r|] == r
    ensures Halves(s, end, a, d, sS, hS + [y], tl, dl)
  {
    assert s[end..] == r + s[end + |r|..];
    assert hS + ([y] + dl + r) + s[end + |r|..] == (hS + [y]) + dl + (r + s[end + |r|..]);
  }

  /** At the divider its left side completes the small half and its right side the large one. */
  lemma SplittingEnds(t: Trie, mid: nat, u: Trie, m: nat, bits: seq<nat>, counts: seq<nat>, cur: nat,
                      sB: seq<nat>, sC: seq<nat>, hB: seq<nat>, hC: seq<nat>)
    requires Splitting(t, mid, u, m, bits, counts, cur, sB, sC, hB, hC)
    requires u.Node? && m == Size(u.left)
    ensures cur + m <= |bits| == |counts|
    ensures Bits(Take(t, mid)) == sB + bits[cur + 1..cur + m]
    ensures Counts(Take(t, mid)) == sC + counts[cur + 1..cur + m]
    ensures Bits(Drop(t, mid)) == hB + bits[cur + m..]
    ensures Counts(Drop(t, mid)) == hC + counts[cur + m..]
  {
    hide *;
    SplittingHere(t, mid, u, m, bits, counts, cur, sB, sC, hB, hC);
    SplittingWindow(t, mid, u, m, bits, counts, cur, sB, sC, hB, hC);
    SplittingHalves(t, mid, u, m, bits, counts, cur, sB, sC, hB, hC);
    TakeDropHere(u);
    BitsOfNode(u);
    WindowSides(u, bits, counts, cur);
    WindowSlice(u.left, bits, counts, cur + 1);
    WindowSlice(u.right, bits, counts, cur + m);
    HalvesHere(bits, cur + m, Bits(Take(t, mid)), Bits(Drop(t, mid)), sB, hB, Bits(u.left), Bits(u.right));
    HalvesHere(counts, cur + m, Counts(Take(t, mid)), Counts(Drop(t, mid)), sC, hC, Counts(u.left), Counts(u.right));
  }

  lemma TakeDropHere(u: Trie)
    requires u.Node?
    ensures Size(u.left) < Size(u) && Take(u, Size(u.left)) == u.left && Drop(u, Size(u.left)) == u.right
  {
    hide Contents;
  }

  lemma HalvesHere(s: seq<nat>, end: nat, a: seq<nat>, d: seq<nat>, sS: seq<nat>, hS: seq<nat>, l: seq<nat>, r: seq<nat>)
    requires Halves(s, end + |r|, a, d, sS, hS, l, r)
    requires s[end..end + |r|] == r
    ensures a == sS + l && d == hS + s[end..]
  {
    assert s[end..] == r + s[end + |r|..];
  }

  // ------------------------------------------------------------------------------------
  // The path to the divider
  // ------------------------------------------------------------------------------------

  /** `path` holds the branches above position `cur`, `lefts` those of them left to the left side.
      `m` keys of the branch at `cur` go to the small half; the last entry of `hC` is what the last
      branch in `lefts` keeps on its left. */
  ghost predicate Path(path: seq<nat>, lefts: seq<nat>, bits: seq<nat>, counts: seq<nat>,
                       hB: seq<nat>, hC: seq<nat>, m: nat, cur: nat)
    requires |bits| == |counts|
    decreases |path|
  {
    && |lefts| == |hB| == |hC|
    && if path == [] then lefts == []
       else
         var p := path[|path| - 1];
         && p < cur && p < |counts|
         && if lefts != [] && lefts[|lefts| - 1] == p then
              && m <= counts[p]
              && hB[|hB| - 1] == bits[p] && hC[|hC| - 1] == counts[p] - m
              && Path(path[..|path| - 1], lefts[..|lefts| - 1], bits, counts, hB[..|hB| - 1], hC[..|hC| - 1], m, p)
            else
              Path(path[..|path| - 1], lefts, bits, counts, hB, hC, m + counts[p], p)
  }

  lemma PathStarts(bits: seq<nat>, counts: seq<nat>, m: nat)
    requires |bits| == |counts|
    ensures Path([], [], bits, counts, [], [], m, 0)
  {
  }

  lemma {:induction false} LeftsAbove(path: seq<nat>, lefts: seq<nat>, bits: seq<nat>, counts: seq<nat>,
                                      hB: seq<nat>, hC: seq<nat>, m: nat, cur: nat)
    requires |bits| == |counts| && Path(path, lefts, bits, counts, hB, hC, m, cur) && lefts != []
    ensures lefts[|lefts| - 1] < cur
    decreases |path|
  {
    var p := path[|path| - 1];
    if lefts[|lefts| - 1] != p {
      LeftsAbove(path[..|path| - 1], lefts, bits, counts, hB, hC, m + counts[p], p);
    }
  }

  /** One step back up a path of `j` branches, of which `n` were left to the left side. */
  lemma PathUp(path: seq<nat>, lefts: seq<nat>, bits: seq<nat>, counts: seq<nat>,
               hB: seq<nat>, hC: seq<nat>, m: nat, cur: nat, j: nat, n: nat)
    requires |bits| == |counts| && j <= |path| && 1 <= n <= |lefts| == |hB| == |hC|
    requires Path(path[..j], lefts[..n], bits, counts, hB[..n], hC[..n], m, cur)
    ensures 1 <= j && path[j - 1] < |counts|
    ensures path[j - 1] == lefts[n - 1] ==>
              && m <= counts[path[j - 1]]
              && hB[n - 1] == bits[path[j - 1]] && hC[n - 1] == counts[path[j - 1]] - m
              && Path(path[..j - 1], lefts[..n - 1], bits, counts, hB[..n - 1], hC[..n - 1], m, path[j - 1])
    ensures path[j - 1] != lefts[n - 1] ==>
              && Path(path[..j - 1], lefts[..n], bits, counts, hB[..n], hC[..n], m + counts[path[j - 1]], path[j - 1])
  {
    if j > 0 {
      assert path[..j][..j - 1] == path[..j - 1] && lefts[..n][..n - 1] == lefts[..n - 1];
      assert hB[..n][..n - 1] == hB[..n - 1] && hC[..n][..n - 1] == hC[..n - 1];
    }
  }

  lemma PathRight(path: seq<nat>, lefts: seq<nat>, bits: seq<nat>, counts: seq<nat>,
                  hB: seq<nat>, hC: seq<nat>, m: nat, cur: nat, next: nat)
    requires |bits| == |counts| && Path(path, lefts, bits, counts, hB, hC, m, cur)
    requires cur < |counts| && counts[cur] <= m && cur < next
    ensures Path(path + [cur], lefts, bits, counts, hB, hC, m - counts[cur], next)
  {
    if lefts != [] { LeftsAbove(path, lefts, bits, counts, hB, hC, m, cur); }
    assert (path + [cur])[..|path|] == path;
  }

  lemma PathLeft(path: seq<nat>, lefts: seq<nat>, bits: seq<nat>, counts: seq<nat>,
                 hB: seq<nat>, hC: seq<nat>, m: nat, cur: nat)
    requires |bits| == |counts| && Path(path, lefts, bits, counts, hB, hC, m, cur)
    requires cur < |counts| && m <= counts[cur]
    ensures Path(path + [cur], lefts + [cur], bits, counts, hB + [bits[cur]], hC + [counts[cur] - m], m, cur + 1)
  {
    assert (path + [cur])[..|path|] == path && (lefts + [cur])[..|lefts|] == lefts;
    assert (hB + [bits[cur]])[..|hB|] == hB && (hC + [counts[cur] - m])[..|hC|] == hC;
  }

  // ------------------------------------------------------------------------------------
  // Both together, as the loop sees them
  // ------------------------------------------------------------------------------------

  /** The state of the descent: keys still to cut off, entries copied, and the recorded path. */
  ghost predicate Descent(t: Trie, mid: nat, u: Trie, m: nat, bits: seq<nat>, counts: seq<nat>, cur: nat,
                          sB: seq<nat>, sC: seq<nat>, hB: seq<nat>, hC: seq<nat>, path: seq<nat>, lefts: seq<nat>)
  {
    && Splitting(t, mid, u, m, bits, counts, cur, sB, sC, hB, hC)
    && Path(path, lefts, bits, counts, hB, hC, m, cur)
  }

  lemma DescentStarts(t: Trie, mid: nat)
    requires 1 <= mid < Size(t)
    ensures Descent(t, mid, t, mid, Bits(t), Counts(t), 0, [], [], [], [], [], [])
  {
    hide *;
    SplittingStarts(t, mid);
    SplittingHere(t, mid, t, mid, Bits(t), Counts(t), 0, [], [], [], []);
    PathStarts(Bits(t), Counts(t), mid);
    DescentOf(t, mid, t, mid, Bits(t), Counts(t), 0, [], [], [], [], [], []);
  }

  lemma DescentOf(t: Trie, mid: nat, u: Trie, m: nat, bits: seq<nat>, counts: seq<nat>, cur: nat,
                  sB: seq<nat>, sC: seq<nat>, hB: seq<nat>, hC: seq<nat>, path: seq<nat>, lefts: seq<nat>)
    requires |bits| == |counts|
    ensures Descent(t, mid, u, m, bits, counts, cur, sB, sC, hB, hC, path, lefts) <==>
            Splitting(t, mid, u, m, bits, counts, cur, sB, sC, hB, hC) && Path(path, lefts, bits, counts, hB, hC, m, cur)
  {
    hide Splitting, Path;
  }

  lemma DescentParts(t: Trie, mid: nat, u: Trie, m: nat, bits: seq<nat>, counts: seq<nat>, cur: nat,
                     sB: seq<nat>, sC: seq<nat>, hB: seq<nat>, hC: seq<nat>, path: seq<nat>, lefts: seq<nat>)
    requires Descent(t, mid, u, m, bits, counts, cur, sB, sC, hB, hC, path, lefts)
    ensures |bits| == |counts| && Splitting(t, mid, u, m, bits, counts, cur, sB, sC, hB, hC)
    ensures Path(path, lefts, bits, counts, hB, hC, m, cur)
    ensures |hB| == |hC| == |lefts|
  {
    hide Contents, Bits, Counts, Take, Drop;
  }

  lemma DescentHere(t: Trie, mid: nat, u: Trie, m: nat, bits: seq<nat>, counts: seq<nat>, cur: nat,
                    sB: seq<nat>, sC: seq<nat>, hB: seq<nat>, hC: seq<nat>, path: seq<nat>, lefts: seq<nat>)
    requires Descent(t, mid, u, m, bits, counts, cur, sB, sC, hB, hC, path, lefts)
    ensures u.Node? && 1 <= m < Size(u) && |bits| == |counts| == Size(t) - 1
    ensures cur < |bits| && counts[cur] == Size(u.left)
    ensures 1 <= Size(u.left) && 1 <= Size(u.right) && Size(u) == Size(u.left) + Size(u.right)
    ensures cur + Size(u) - 1 <= |bits| && |lefts| == |hB| == |hC| == cur + m - mid
    ensures |sB| == |sC| == mid - m
  {
    hide *;
    DescentParts(t, mid, u, m, bits, counts, cur, sB, sC, hB, hC, path, lefts);
    SplittingHere(t, mid, u, m, bits, counts, cur, sB, sC, hB, hC);
  }

  lemma DescentRight(t: Trie, mid: nat, u: Trie, m: nat, bits: seq<nat>, counts: seq<nat>, cur: nat,
                     sB: seq<nat>, sC: seq<nat>, hB: seq<nat>, hC: seq<nat>, path: seq<nat>, lefts: seq<nat>)
    requires Descent(t, mid, u, m, bits, counts, cur, sB, sC, hB, hC, path, lefts)
    requires u.Node? && Size(u.left) < m
    ensures cur + Size(u.left) <= |bits| == |counts|
    ensures Descent(t, mid, u.right, m - Size(u.left), bits, counts, cur + Size(u.left),
                    sB + bits[cur..cur + Size(u.left)], sC + counts[cur..cur + Size(u.left)], hB, hC, path + [cur], lefts)
  {
    hide *;
    DescentParts(t, mid, u, m, bits, counts, cur, sB, sC, hB, hC, path, lefts);
    SplittingHere(t, mid, u, m, bits, counts, cur, sB, sC, hB, hC);
    SplittingRight(t, mid, u, m, bits, counts, cur, sB, sC, hB, hC);
    PathRight(path, lefts, bits, counts, hB, hC, m, cur, cur + Size(u.left));
    DescentOf(t, mid, u.right, m - Size(u.left), bits, counts, cur + Size(u.left),
              sB + bits[cur..cur + Size(u.left)], sC + counts[cur..cur + Size(u.left)], hB, hC, path + [cur], lefts);
  }

  lemma DescentLeft(t: Trie, mid: nat, u: Trie, m: nat, bits: seq<nat>, counts: seq<nat>, cur: nat,
                    sB: seq<nat>, sC: seq<nat>, hB: seq<nat>, hC: seq<nat>, path: seq<nat>, lefts: seq<nat>)
    requires Descent(t, mid, u, m, bits, counts, cur, sB, sC, hB, hC, path, lefts)
    requires u.Node? && m < Size(u.left)
    ensures Descent(t, mid, u.left, m, bits, counts, cur + 1, sB, sC, hB + [u.bit], hC + [Size(u.left) - m],
                    path + [cur], lefts + [cur])
  {
    hide *;
    DescentParts(t, mid, u, m, bits, counts, cur, sB, sC, hB, hC, path, lefts);
    SplittingHere(t, mid, u, m, bits, counts, cur, sB, sC, hB, hC);
    SplittingLeft(t, mid, u, m, bits, counts, cur, sB, sC, hB, hC);
    PathLeft(path, lefts, bits, counts, hB, hC, m, cur);
    DescentOf(t, mid, u.left, m, bits, counts, cur + 1, sB, sC, hB + [u.bit], hC + [Size(u.left) - m],
              path + [cur], lefts + [cur]);
  }

  lemma DescentEnds(t: Trie, mid: nat, u: Trie, m: nat, bits: seq<nat>, counts: seq<nat>, cur: nat,
                    sB: seq<nat>, sC: seq<nat>, hB: seq<nat>, hC: seq<nat>, path: seq<nat>, lefts: seq<nat>)
    requires Descent(t, mid, u, m, bits, counts, cur, sB, sC, hB, hC, path, lefts)
    requires u.Node? && m == Size(u.left)
    ensures 1 <= mid < Size(t) && cur + m <= |bits| == |counts|
    ensures Bits(Take(t, mid)) == sB + bits[cur + 1..cur + m] && Counts(Take(t, mid)) == sC + counts[cur + 1..cur + m]
    ensures Bits(Drop(t, mid)) == hB + bits[cur + m..] && Counts(Drop(t, mid)) == hC + counts[cur + m..]
    ensures Path(path, lefts, bits, counts, hB, hC, m, cur)
  {
    hide *;
    DescentParts(t, mid, u, m, bits, counts, cur, sB, sC, hB, hC, path, lefts);
    SplittingHere(t, mid, u, m, bits, counts, cur, sB, sC, hB, hC);
    SplittingEnds(t, mid, u, m, bits, counts, cur, sB, sC, hB, hC);
  }
}
