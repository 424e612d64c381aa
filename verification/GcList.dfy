/** The linked garbage list of one thread, appended at the end and freed from the front. */
module GcList {
  import opened EpochGc

  class GarbageNode {
    const entry: Garbage
    var next: GarbageNode?

    constructor (entry: Garbage)
      ensures this.entry == entry && next == null
    {
      this.entry := entry;
      next := null;
    }
  }

  /** The entries at the front that are older than the minimum. */
  function Older(g: seq<Garbage>, min: nat): (n: nat)
    ensures n <= |g|
    ensures forall k :: 0 <= k < n ==> g[k].deleteEpoch < min
    ensures n < |g| ==> min <= g[n].deleteEpoch
  {
    if g == [] || min <= g[0].deleteEpoch then 0 else 1 + Older(g[1..], min)
  }

  class GcMetaData {
    const header: GarbageNode
    var last: GarbageNode
    var nodeCount: nat
    ghost var chain: seq<GarbageNode>

    /** `chain` is the list as it is linked, from the header on. */
    ghost predicate Linked()
      reads this, chain
    {
      && |chain| > 0 && chain[0] == header
      && (forall i, j :: 0 <= i < j < |chain| ==> chain[i] != chain[j])
      && (forall i :: 0 <= i < |chain| - 1 ==> chain[i].next == chain[i + 1])
      && chain[|chain| - 1].next == null
      && nodeCount == |chain| - 1
    }

    ghost predicate Valid()
      reads this, chain
    {
      Linked() && last == chain[|chain| - 1]
    }

    ghost function Entries(): (g: seq<Garbage>)
      requires |chain| > 0
      reads this
      ensures |g| == |chain| - 1
    {
      seq(|chain| - 1, i requires 0 <= i < |chain| - 1 reads this => chain[i + 1].entry)
    }

    constructor ()
      ensures Valid() && fresh(header) && fresh(chain) && Entries() == []
    {
      var h := new GarbageNode(Garbage(0, 0));
      header, last, nodeCount, chain := h, h, 0, [h];
    }

    /** `AddGarbageNode`: stamps the node with the epoch it read and appends it. */
    method AddGarbageNode(epoch: nat, node: Ptr)
      requires Valid()
      modifies this, chain
      ensures Valid() && fresh(set x | x in chain && x !in old(chain))
      ensures Entries() == old(Entries()) + [Garbage(epoch, node)] && nodeCount == old(nodeCount) + 1
    {
      var n := new GarbageNode(Garbage(epoch, node));
      last.next := n;
      last := n;
      nodeCount := nodeCount + 1;
      chain := chain + [n];
    }

    /** Takes the first entry out of the list. */
    method UnlinkFirst() returns (entry: Garbage)
      requires Linked() && |chain| > 1
      modifies this`nodeCount, this`chain, header
      ensures Linked() && chain == [header] + old(chain)[2..]
      ensures entry == old(Entries())[0] && Entries() == old(Entries())[1..]
    {
      var first := header.next;
      ghost var g := Entries();
      assert chain[0].next == chain[1] && g[0] == chain[1].entry;
      entry := first.entry;
      header.next := first.next;
      nodeCount := nodeCount - 1;
      ghost var old' := chain;
      chain := [header] + chain[2..];
      assert forall i :: 1 <= i < |chain| ==> chain[i] == old'[i + 1];
      assert forall i :: 0 <= i < |chain| - 1 ==> Entries()[i] == g[i + 1];
    }

    /** `PerformGC`: frees from the front while the entries are older than the minimum. */
    method PerformGC(minEpoch: nat) returns (freed: seq<Ptr>)
      requires Valid()
      modifies this, chain
      ensures Valid()
      ensures var g, n := old(Entries()), Older(old(Entries()), minEpoch);
              Entries() == g[n..] && nodeCount == |g| - n && |freed| == n && forall k :: 0 <= k < n ==> freed[k] == g[k].node
    {
      ghost var g := Entries();
      freed := [];
      var first := header.next;
      while first != null && first.entry.deleteEpoch < minEpoch
        invariant Linked() && first == header.next
        invariant forall x :: x in chain ==> x in old(chain)
        invariant |chain| > 1 ==> last == chain[|chain| - 1]
        invariant |freed| <= |g| && Entries() == g[|freed|..]
        invariant forall k :: 0 <= k < |freed| ==> freed[k] == g[k].node && g[k].deleteEpoch < minEpoch
        decreases |chain|
      {
        assert first == chain[1] && Entries()[0] == first.entry == g[|freed|];
        var entry := UnlinkFirst();
        freed := freed + [entry.node];
        first := header.next;
      }
      assert first != null ==> first == chain[1] && Entries()[0] == first.entry;
      assert first == null ==> |chain| == 1;
      OlderIs(g, minEpoch, |freed|);
      if first == null {
        last := header;
      }
    }
  }

  lemma OlderIs(g: seq<Garbage>, min: nat, n: nat)
    requires n <= |g| && (forall k :: 0 <= k < n ==> g[k].deleteEpoch < min) && (n < |g| ==> min <= g[n].deleteEpoch)
    ensures Older(g, min) == n
  {
  }

  /** The frees of one collection, one after the other, in the machine of all threads. */
  ghost predicate Frees(s: State, i: nat, states: seq<State>, n: nat)
  {
    && |states| == n + 1 && states[0] == s
    && forall k :: 0 <= k < n ==> Enabled(states[k], Free(i)) && states[k + 1] == After(states[k], Free(i))
  }

  lemma OlderUnfolds(g: seq<Garbage>, min: nat)
    ensures g != [] && g[0].deleteEpoch < min ==> Older(g, min) == 1 + Older(g[1..], min)
    ensures g == [] || min <= g[0].deleteEpoch ==> Older(g, min) == 0
  {
  }

  /** What `PerformGC` does to the list of a thread is what its `Free` steps do: as many as there are
      entries older than the minimum at the front, each taking the first entry and freeing its node;
      after them the collection ends. */
  lemma {:induction false} CollectionIsFrees(s: State, i: nat) returns (states: seq<State>)
    requires i < |s.threads| && s.threads[i].gc.Collecting? && s.threads[i].nodeCount == |s.threads[i].garbage|
    ensures var g, min := s.threads[i].garbage, s.threads[i].gc.min;
            var n := Older(g, min);
            && Frees(s, i, states, n) && |states[n].threads| == |s.threads|
            && states[n].threads[i] == s.threads[i].(garbage := g[n..], nodeCount := |g| - n)
            && Enabled(states[n], EndGc(i))
            && (forall m :: m in states[n].place && states[n].place[m] != Freed ==> Is(s, m, states[n].place[m]))
            && (forall k :: 0 <= k < n ==> Is(states[n], g[k].node, Freed)) && s.place.Keys <= states[n].place.Keys
    decreases |s.threads[i].garbage|
  {
    hide *;
    var g, min := s.threads[i].garbage, s.threads[i].gc.min;
    OlderUnfolds(g, min);
    if g == [] || min <= g[0].deleteEpoch {
      states := [s];
      NothingOlder(s, i);
    } else {
      FreeEffect(s, i);
      var s1 := After(s, Free(i));
      var rest := CollectionIsFrees(s1, i);
      states := [s] + rest;
      var n := Older(g, min);
      FreesAre(s1, i, rest, n - 1);
      assert states[n] == rest[n - 1] && g[1..][n - 1..] == g[n..];
      FreesAfter(s, i, rest, n - 1);
      FirstFreed(s, i, states[n], n);
    }
  }

  lemma FreesAre(s: State, i: nat, states: seq<State>, n: nat)
    requires Frees(s, i, states, n)
    ensures |states| == n + 1
  {
  }

  lemma NothingOlder(s: State, i: nat)
    requires i < |s.threads| && s.threads[i].gc.Collecting?
    requires s.threads[i].garbage == [] || s.threads[i].gc.min <= s.threads[i].garbage[0].deleteEpoch
    ensures Frees(s, i, [s], 0) && Enabled(s, EndGc(i)) && s.threads[i].garbage[0..] == s.threads[i].garbage
    ensures forall m :: m in s.place ==> Is(s, m, s.place[m])
  {
  }

  lemma FreeEffect(s: State, i: nat)
    requires i < |s.threads| && s.threads[i].gc.Collecting? && s.threads[i].garbage != []
    requires s.threads[i].garbage[0].deleteEpoch < s.threads[i].gc.min && s.threads[i].nodeCount == |s.threads[i].garbage|
    ensures Enabled(s, Free(i))
    ensures var s1, t := After(s, Free(i)), s.threads[i];
            && |s1.threads| == |s.threads| && s1.threads[i] == t.(garbage := t.garbage[1..], nodeCount := |t.garbage| - 1)
            && s1.place.Keys == s.place.Keys + {t.garbage[0].node}
  {
  }

  lemma FreesAfter(s: State, i: nat, rest: seq<State>, n: nat)
    requires Enabled(s, Free(i)) && Frees(After(s, Free(i)), i, rest, n)
    ensures Frees(s, i, [s] + rest, n + 1)
  {
    hide Enabled, After;
    var states := [s] + rest;
    forall k | 0 <= k < n + 1
      ensures Enabled(states[k], Free(i)) && states[k + 1] == After(states[k], Free(i))
    {
      if k > 0 { assert states[k] == rest[k - 1] && states[k + 1] == rest[k - 1 + 1]; }
    }
  }

  lemma FirstFreed(s: State, i: nat, end: State, n: nat)
    requires Enabled(s, Free(i)) && 0 < n <= |s.threads[i].garbage|
    requires var g, s1 := s.threads[i].garbage, After(s, Free(i));
             && (forall k :: 0 <= k < n - 1 ==> Is(end, g[1..][k].node, Freed))
             && (forall m :: m in end.place && end.place[m] != Freed ==> Is(s1, m, end.place[m]))
             && g[0].node in end.place
    ensures var g := s.threads[i].garbage;
            && (forall k :: 0 <= k < n ==> Is(end, g[k].node, Freed))
            && (forall m :: m in end.place && end.place[m] != Freed ==> Is(s, m, end.place[m]))
  {
    var g := s.threads[i].garbage;
    forall k | 0 <= k < n
      ensures Is(end, g[k].node, Freed)
    {
      if k > 0 { assert g[1..][k - 1] == g[k]; }
    }
  }
}
