/** What joining two tries at a boundary bit does to their preorder entries. */
module PreorderJoin {
  import opened Trie
  import opened TrieEdits
  import opened Preorder
  import opened PreorderSplit

  /** One array of the merge: `a` are the entries of the joined trie, `f` those already written in
      front, `mid` those of the parts still to join, and `ub[back..]` those already in place behind. */
  ghost predicate Around(a: seq<nat>, f: seq<nat>, mid: seq<nat>, ub: seq<nat>, back: nat)
  {
    back <= |ub| && a == f + mid + ub[back..]
  }

  /** The small trie is used up to entry `i` on its right spine, the large one up to entry `il` on
      its left spine, with the right sides of the passed branches written from the back. */
  ghost predicate Joining(t0: Trie, u0: Trie, d: nat, t: Trie, u: Trie,
                          tb: seq<nat>, tc: seq<nat>, ub: seq<nat>, uc: seq<nat>,
                          i: nat, il: nat, back: nat, fB: seq<nat>, fC: seq<nat>)
  {
    && Window(t, tb, tc, i) && i + Size(t) - 1 == |tb| == Size(t0) - 1
    && Window(u, ub, uc, il) && il + Size(u) - 1 == back <= |ub| == Size(u0) - 1
    && Around(Bits(Join(t0, u0, d)), fB, Bits(Join(t, u, d)), ub, back)
    && Around(Counts(Join(t0, u0, d)), fC, Counts(Join(t, u, d)), uc, back)
    && |fB| == |fC| == i + il
  }

  lemma JoiningOf(t0: Trie, u0: Trie, d: nat, t: Trie, u: Trie,
                  tb: seq<nat>, tc: seq<nat>, ub: seq<nat>, uc: seq<nat>,
                  i: nat, il: nat, back: nat, fB: seq<nat>, fC: seq<nat>)
    ensures Joining(t0, u0, d, t, u, tb, tc, ub, uc, i, il, back, fB, fC) <==>
            && Window(t, tb, tc, i) && i + Size(t) - 1 == |tb| == Size(t0) - 1
            && Window(u, ub, uc, il) && il + Size(u) - 1 == back <= |ub| == Size(u0) - 1
            && Around(Bits(Join(t0, u0, d)), fB, Bits(Join(t, u, d)), ub, back)
            && Around(Counts(Join(t0, u0, d)), fC, Counts(Join(t, u, d)), uc, back)
            && |fB| == |fC| == i + il
  {
    hide Contents, Window, Around, Join, Bits, Counts;
  }

  lemma JoiningStarts(t: Trie, u: Trie, d: nat)
    ensures Joining(t, u, d, t, u, Bits(t), Counts(t), Bits(u), Counts(u), 0, 0, Size(u) - 1, [], [])
  {
    hide *;
    SizesOf(t);
    SizesOf(u);
    WholeSlice(Bits(t)); WholeSlice(Counts(t)); WholeSlice(Bits(u)); WholeSlice(Counts(u));
    SliceWindow(t, Bits(t), Counts(t), 0);
    SliceWindow(u, Bits(u), Counts(u), 0);
    AroundStarts(Bits(Join(t, u, d)), Bits(u));
    AroundStarts(Counts(Join(t, u, d)), Counts(u));
    JoiningOf(t, u, d, t, u, Bits(t), Counts(t), Bits(u), Counts(u), 0, 0, Size(u) - 1, [], []);
  }

  lemma WholeSlice(s: seq<nat>)
    ensures s[0..|s|] == s
  {
  }

  lemma AroundStarts(a: seq<nat>, ub: seq<nat>)
    ensures Around(a, [], a, ub, |ub|)
  {
  }

  /** What the loop can read off at the current entries. */
  lemma JoiningHere(t0: Trie, u0: Trie, d: nat, t: Trie, u: Trie,
                    tb: seq<nat>, tc: seq<nat>, ub: seq<nat>, uc: seq<nat>,
                    i: nat, il: nat, back: nat, fB: seq<nat>, fC: seq<nat>)
    requires Joining(t0, u0, d, t, u, tb, tc, ub, uc, i, il, back, fB, fC)
    ensures |tb| == |tc| == Size(t0) - 1 && |ub| == |uc| == Size(u0) - 1 && |fB| == |fC| == i + il
    ensures i + Size(t) - 1 == |tb| && il + Size(u) - 1 == back <= |ub|
    ensures t.Leaf? <==> Size(t) == 1
    ensures u.Leaf? <==> Size(u) == 1
    ensures t.Node? ==> i < |tb| && tb[i] == t.bit && tc[i] == Size(t.left) && Size(t) == Size(t.left) + Size(t.right)
    ensures u.Node? ==> il < |ub| && ub[il] == u.bit && uc[il] == Size(u.left) && Size(u) == Size(u.left) + Size(u.right)
    ensures t.Node? ==> 1 <= Size(t.left) && 1 <= Size(t.right)
    ensures u.Node? ==> 1 <= Size(u.left) && 1 <= Size(u.right)
    ensures BoundaryNext(t, u, d) <==> (t.Leaf? || d < t.bit) && (u.Leaf? || d < u.bit)
    ensures SmallNext(t, u) <==> u.Leaf? || (t.Node? && t.bit < u.bit)
  {
    hide Contents, Bits, Counts, Around, Join;
    SizesOf(t);
    SizesOf(u);
    if t.Node? { WindowSides(t, tb, tc, i); }
    if u.Node? { WindowSides(u, ub, uc, il); }
  }

  lemma JoiningParts(t0: Trie, u0: Trie, d: nat, t: Trie, u: Trie,
                     tb: seq<nat>, tc: seq<nat>, ub: seq<nat>, uc: seq<nat>,
                     i: nat, il: nat, back: nat, fB: seq<nat>, fC: seq<nat>)
    requires Joining(t0, u0, d, t, u, tb, tc, ub, uc, i, il, back, fB, fC)
    ensures Window(t, tb, tc, i) && Window(u, ub, uc, il)
    ensures Around(Bits(Join(t0, u0, d)), fB, Bits(Join(t, u, d)), ub, back)
    ensures Around(Counts(Join(t0, u0, d)), fC, Counts(Join(t, u, d)), uc, back)
  {
    hide Contents, Window, Around, Join, Bits, Counts;
  }

  lemma JoinBitsSmall(t: Trie, u: Trie, d: nat)
    requires !BoundaryNext(t, u, d) && SmallNext(t, u)
    ensures t.Node?
    ensures Bits(Join(t, u, d)) == [t.bit] + Bits(t.left) + Bits(Join(t.right, u, d))
    ensures Counts(Join(t, u, d)) == [Size(t.left)] + Counts(t.left) + Counts(Join(t.right, u, d))
  {
    hide *;
    JoinUnfolds(t, u, d);
    BitsOfNode(Join(t, u, d));
  }

  lemma JoinBitsLarge(t: Trie, u: Trie, d: nat)
    requires !BoundaryNext(t, u, d) && !SmallNext(t, u)
    ensures u.Node?
    ensures Bits(Join(t, u, d)) == [u.bit] + Bits(Join(t, u.left, d)) + Bits(u.right)
    ensures Counts(Join(t, u, d)) == [Size(t) + Size(u.left)] + Counts(Join(t, u.left, d)) + Counts(u.right)
  {
    hide *;
    JoinUnfolds(t, u, d);
    BitsOfNode(Join(t, u, d));
  }

  lemma JoinBitsBoundary(t: Trie, u: Trie, d: nat)
    requires BoundaryNext(t, u, d)
    ensures Bits(Join(t, u, d)) == [d] + Bits(t) + Bits(u)
    ensures Counts(Join(t, u, d)) == [Size(t)] + Counts(t) + Counts(u)
  {
    hide *;
    JoinUnfolds(t, u, d);
    BitsOfNode(Join(t, u, d));
  }

  lemma AroundFront(a: seq<nat>, f: seq<nat>, x: seq<nat>, mid: seq<nat>, ub: seq<nat>, back: nat)
    requires Around(a, f, x + mid, ub, back)
    ensures Around(a, f + x, mid, ub, back)
  {
    assert f + (x + mid) == f + x + mid;
  }

  lemma AroundBack(a: seq<nat>, f: seq<nat>, x: nat, mid: seq<nat>, r: seq<nat>, ub: seq<nat>, back: nat, back': nat)
    requires Around(a, f, [x] + mid + r, ub, back)
    requires back' + |r| == back && ub[back'..back] == r
    ensures Around(a, f + [x], mid, ub, back')
  {
    assert ub[back'..] == r + ub[back..];
    assert f + ([x] + mid + r) + ub[back..] == (f + [x]) + mid + (r + ub[back..]);
  }

  /** The next branch is the small trie's: it and its left side come next unchanged. */
  lemma JoiningSmall(t0: Trie, u0: Trie, d: nat, t: Trie, u: Trie,
                     tb: seq<nat>, tc: seq<nat>, ub: seq<nat>, uc: seq<nat>,
                     i: nat, il: nat, back: nat, fB: seq<nat>, fC: seq<nat>)
    requires Joining(t0, u0, d, t, u, tb, tc, ub, uc, i, il, back, fB, fC)
    requires !BoundaryNext(t, u, d) && SmallNext(t, u) && t.Node?
    ensures i + Size(t.left) <= |tb| == |tc|
    ensures Joining(t0, u0, d, t.right, u, tb, tc, ub, uc, i + Size(t.left), il, back,
                    fB + tb[i..i + Size(t.left)], fC + tc[i..i + Size(t.left)])
  {
    hide *;
    JoiningHere(t0, u0, d, t, u, tb, tc, ub, uc, i, il, back, fB, fC);
    JoiningParts(t0, u0, d, t, u, tb, tc, ub, uc, i, il, back, fB, fC);
    WindowSides(t, tb, tc, i);
    JoinBitsSmall(t, u, d);
    AroundFront(Bits(Join(t0, u0, d)), fB, tb[i..i + Size(t.left)], Bits(Join(t.right, u, d)), ub, back);
    AroundFront(Counts(Join(t0, u0, d)), fC, tc[i..i + Size(t.left)], Counts(Join(t.right, u, d)), uc, back);
    JoiningOf(t0, u0, d, t.right, u, tb, tc, ub, uc, i + Size(t.left), il, back,
              fB + tb[i..i + Size(t.left)], fC + tc[i..i + Size(t.left)]);
  }

  /** The next branch is the large trie's: its left side gains all keys left of the small trie. */
  lemma JoiningLarge(t0: Trie, u0: Trie, d: nat, t: Trie, u: Trie,
                     tb: seq<nat>, tc: seq<nat>, ub: seq<nat>, uc: seq<nat>,
                     i: nat, il: nat, back: nat, fB: seq<nat>, fC: seq<nat>)
    requires Joining(t0, u0, d, t, u, tb, tc, ub, uc, i, il, back, fB, fC)
    requires !BoundaryNext(t, u, d) && !SmallNext(t, u) && u.Node?
    ensures Joining(t0, u0, d, t, u.left, tb, tc, ub, uc, i, il + 1, il + Size(u.left),
                    fB + [u.bit], fC + [Size(t) + Size(u.left)])
  {
    hide *;
    JoiningHere(t0, u0, d, t, u, tb, tc, ub, uc, i, il, back, fB, fC);
    JoiningParts(t0, u0, d, t, u, tb, tc, ub, uc, i, il, back, fB, fC);
    WindowSides(u, ub, uc, il);
    WindowSlice(u.right, ub, uc, il + Size(u.left));
    BitsOfNode(u);
    JoinBitsLarge(t, u, d);
    AroundBack(Bits(Join(t0, u0, d)), fB, u.bit, Bits(Join(t, u.left, d)), Bits(u.right), ub, back, il + Size(u.left));
    AroundBack(Counts(Join(t0, u0, d)), fC, Size(t) + Size(u.left), Counts(Join(t, u.left, d)), Counts(u.right), uc, back, il + Size(u.left));
    JoiningOf(t0, u0, d, t, u.left, tb, tc, ub, uc, i, il + 1, il + Size(u.left), fB + [u.bit], fC + [Size(t) + Size(u.left)]);
  }

  /** The entries in front, one entry for the boundary, the rest of the small trie from `i`, the rest
      of the large one from `il`, and the tails. */
  function Assembled(f: seq<nat>, x: nat, tb: seq<nat>, i: nat, ub: seq<nat>, il: nat, back: nat): seq<nat>
    requires i <= |tb| && il <= back <= |ub|
  {
    f + [x] + tb[i..] + ub[il..back] + ub[back..]
  }

  /** The boundary bit comes next: after it both rests follow unchanged. */
  lemma JoiningEnds(t0: Trie, u0: Trie, d: nat, t: Trie, u: Trie,
                    tb: seq<nat>, tc: seq<nat>, ub: seq<nat>, uc: seq<nat>,
                    i: nat, il: nat, back: nat, fB: seq<nat>, fC: seq<nat>)
    requires i <= |tb| == |tc| && il <= back <= |ub| == |uc|
    requires Joining(t0, u0, d, t, u, tb, tc, ub, uc, i, il, back, fB, fC) && BoundaryNext(t, u, d)
    ensures Bits(Join(t0, u0, d)) == Assembled(fB, d, tb, i, ub, il, back)
    ensures Counts(Join(t0, u0, d)) == Assembled(fC, Size(t), tc, i, uc, il, back)
  {
    hide *;
    JoiningHere(t0, u0, d, t, u, tb, tc, ub, uc, i, il, back, fB, fC);
    JoiningParts(t0, u0, d, t, u, tb, tc, ub, uc, i, il, back, fB, fC);
    SizesOf(t);
    SizesOf(u);
    WindowSlice(t, tb, tc, i);
    WindowSlice(u, ub, uc, il);
    JoinBitsBoundary(t, u, d);
    assert tb[i..|tb|] == tb[i..] && tc[i..|tc|] == tc[i..];
    AroundEnds(Bits(Join(t0, u0, d)), fB, d, tb, i, ub, il, back);
    AroundEnds(Counts(Join(t0, u0, d)), fC, Size(t), tc, i, uc, il, back);
  }

  lemma AroundEnds(a: seq<nat>, f: seq<nat>, x: nat, tb: seq<nat>, i: nat, ub: seq<nat>, il: nat, back: nat)
    requires i <= |tb| && il <= back <= |ub|
    requires Around(a, f, [x] + tb[i..] + ub[il..back], ub, back)
    ensures a == Assembled(f, x, tb, i, ub, il, back)
  {
  }
}
