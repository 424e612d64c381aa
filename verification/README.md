# Verified models of the blindi nodes and the Bw-Tree

This project models two parts of the repository and proves what they keep.

**The blindi leaf nodes.** A leaf node holds strictly sorted keys of one length and, for every two
neighbours, only the first bit in which they differ. There are four encodings: the flat array
(`LinearBlindiNode`), the flat array with a small tree of range minima (`SeqTreeBlindiNode`), the trie in
preorder with left-leaf counts (`SubTrieBlindiNode`) and the trie in pointer arrays (`TrieBlindiNode`). Keys
are strings of bits, most significant first (`Keys.dfy`). The trie of a node is a datatype (`Trie.dfy`,
`TrieEdits.dfy`), and `Trie.Canonical` shows that the keys determine it; so two nodes with the same keys stand
for the same trie. Each encoding is a class with the arrays and counters of the source, and each of its methods
is proved against the key sequence `Stored()`: search returns the exact position or rank, insertion and removal
change exactly one place, a split yields the exact halves, a merge the concatenation, and `Valid()`, which says
that the encoding is exact, is kept by all of them but for the cases listed under Findings.

- `Keys`, `NodeArrays`: bits, byte comparison, array moves.
- `Trie`, `TrieEdits`: blind descent, rank, insertion, removal, taking, dropping and joining of tries.
- `DiffScan`, `DiffEdits`, `LinearNode`: the flat encoding.
- `RangeMinima`, `TreeEdits`, `SeqTreeTables`, `SeqTreeNode`: the tree of range minima and its node.
- `Preorder`, `PreorderSplit`, `PreorderJoin`, `SubTrieSplit`, `SubTrieJoin`, `SubTrieNode`: the preorder encoding.
- `TrieLayout`, `TrieWalk`, `TrieRelink`, `TrieSplice`, `TrieMerge`, `TrieFill`, `TrieCopy`, `TriePrune`,
  `TrieCut`, `TrieNode`: the pointer encoding; `Laid` ties the arrays to a shape, and the shape to a trie.

**The Bw-Tree.** Delta chains are datatypes. Their meaning is the log replayed from the oldest record
(`LeafChain.Replay`, `InnerChain.Seps`). Consolidation, searching without consolidation and splitting are
methods over chains. The tree is a state machine: one step is one atomic installation in the mapping table,
and a thread may act on any snapshot it can ever have taken. NodeIDs are not reused.

- `BwTypes`, `SortedSmallSet`: bounds, items, the sorted set of records.
- `LeafChain`, `LeafReplay`, `LeafMerge`, `LeafConsolidate`, `LeafValues`, `LeafSplit`, `LeafLevel`, `LeafLoss`: leaves.
- `InnerChain`, `InnerMerge`, `InnerConsolidate`, `InnerSearch`, `InnerAgree`: inner nodes.
- `TreeRouting`, `TreeKinds`, `TreeTraverse`, `TreeMeaning`: the whole tree, what its steps mean, and one traversal
  through it while it changes.
- `ParentLevel`, `ParentKids`, `ParentTerms`, `ParentSplit`, `ParentRuns`, `ParentFinish`, `ParentEarly`: the help-along
  protocol between a level of inner nodes and the level below it.
- `EpochGc`, `EpochHistory`, `EpochCollect`, `EpochSolo`, `GcList`: epoch-based reclamation. `AtomicStack`: the stack
  of free NodeIDs.

## Findings

Properties that do not hold of the code, each with an input and with the condition under which they do.

| property | source | input | holds exactly when |
|---|---|---|---|
| Collecting the values of a key from a leaf chain lists all of them | BwTree/src/bwtree.h:4372-4391 | a pair inserted into the left leaf on top of a merge, then a lookup of the only key of the right leaf (`LeafLoss.LossReached`, a run from the empty tree) | every item of the key in the leaf that no record on the way down concerns lies at or behind the place in the oldest record for a smaller key, and if there is such an item, the first item of the key does not lie behind the place in the oldest record for a larger key (`LeafLoss.NothingLostExactly`, `LeafLoss.ListsAllExactly`); in particular on every chain without a merge (`LeafValues.MergeFreeIsLocal`, `LeafValues.LocalHintsLoseNothing`) |
| The bounds of that search are positions in the leaf, in order | BwTree/src/bwtree.h:4274-4302 | the same run with another key inserted: the search would begin outside the leaf (`LeafLoss.OutsideReached`); or bounds that cross (`LeafLoss.ForeignHintCrosses`) | the place in the oldest record for a smaller key, if any, is at most the length of the leaf, and the place in the oldest record for a larger key, if any, is neither in front of that place nor behind the leaf (`LeafLoss.InLeafExactly`) |
| Removing a key from a seqtree node keeps its tree of range minima exact | blindi_seqtree/blindi_seqtree.hpp:2922-2927 | removal of the first of two keys | the node does not have exactly two keys of which the first is removed (`SeqTreeNode.SeqTreeBlindiNode.RemoveFromBlindiNodeInPosition`) |
| Building a seqtree node from sorted keys gives an exact tree | blindi_seqtree/blindi_seqtree.hpp:187-247 | one key | there are at least two keys (`SeqTreeNode.SeqTreeBlindiNode.TransferBtree2Blindi`) |
| Merging two subtrie nodes whose keys fit into one yields the exact encoding | blindi_subtrie/blindi_subtrie.hpp:529 | a node of 4 slots with the keys 000, 001, 010, and one with the key 100: the store of the boundary bit falls one entry behind `blindiKeys`, on the first left count; the counts should be 3, 2, 1, the merge leaves 3, 0, 1 (`SubTrieJoin.FullNodeInput`) | the left node has at most `NUM_SLOTS - 2` keys, or at most one, or the right one has none, or the boundary bit equals the first left count of the left node (`SubTrieNode.SubTrieBlindiNode.MergeBlindiNodes`, `SubTrieJoin.JoinEntries`; the last case occurs, `SubTrieJoin.FullNodeLuck`) |
| Searching an inner chain leads where its consolidated form would | BwTree/src/bwtree.h:6198-6226 | a split key compared with the high key of a parent snapshot that is older than a merge of the parent: the split counts as posted, though it is not (`ParentEarly.EarlyRun`, a run in which the parent is split at 128 children and merged when its right part is down to 32, with one early comparison and every other step up to date) | every data delta of the chain was posted with the neighbours its key had then (`InnerAgree.AgreesIffExact`). Every run in which the comparison is made with the current parent keeps this (`ParentRuns.EveryRun`); these runs have no abort delta, which only holds installations up, and take the check that a parent's child is not removed and the installation of the split in front of that child as one step. In every case the child found begins at or below the key (`InnerSearch.NavigateInnerNode`), from where traversal goes right |

## Model

| member | source | states |
|---|---|---|
| Keys.CompareStage | blindi_seqtree/blindi_seqtree.hpp:3526-3562 | comparing two byte keys from the most significant byte down yields the first bit in which their bit strings differ, whether they are equal, and which is the larger |
| Keys.FirstMsbLookUpTable | bit_manipulation.hpp:34-66 | the position of the first bit that is set in a non-zero byte, counted from the top: that bit is set and none in front of it is |
| Trie.Canonical | blindi_subtrie/blindi_subtrie.hpp:177-193 | two well-formed tries with the same keys are equal, so the keys of a node determine its trie |
| Trie.BitsIncrease | blindi_trie.hpp:310-362 | the branch bit of a node is below the branch bits of its children |
| Trie.DescendMaximal | blindi_subtrie/blindi_subtrie.hpp:177-193 | for every query, no stored key shares a longer prefix with it than the one blind descent ends at |
| Trie.DescendHits | blindi_subtrie/blindi_subtrie.hpp:667-703 | a key is stored if and only if blind descent ends at it |
| Trie.RankCorrect | blindi_subtrie/blindi_subtrie.hpp:208-236 | the position computed from the first differing bit has exactly the smaller keys in front of it, and the query is not stored |
| Trie.InsertCorrect | blindi_subtrie/blindi_subtrie.hpp:240-328 | adding a branch at the first differing bit gives a well-formed trie of the keys with the query inserted at its rank |
| TrieEdits.RemoveCorrect | blindi_subtrie/blindi_subtrie.hpp:453-498 | replacing a branch by its other side gives a well-formed trie of the remaining keys |
| TrieEdits.TakeCorrect | blindi_subtrie/blindi_subtrie.hpp:335-451 | cutting a trie at a leaf gives a well-formed trie of exactly the keys in front of it |
| TrieEdits.DropCorrect | blindi_subtrie/blindi_subtrie.hpp:335-451 | and a well-formed trie of exactly the keys from it on |
| TrieEdits.JoinContents | blindi_subtrie/blindi_subtrie.hpp:502-595 | interleaving the right spine of one trie with the left spine of another gives a trie of the keys of the first followed by those of the second |
| TrieEdits.JoinWellFormed | blindi_subtrie/blindi_subtrie.hpp:502-595 | if all keys of the first are below those of the second and the boundary bit is where the last of the first and the first of the second differ, that trie is well formed |
| PreorderJoin.JoiningEnds | blindi_subtrie/blindi_subtrie.hpp:552-590 | what the merge loop has written when it comes to the boundary bit, with the rest of both inputs, is the preorder encoding of the joined trie, branch bits and left counts |
| PreorderSplit.SplittingEnds | blindi_subtrie/blindi_subtrie.hpp:347-449 | what the split loop has copied when it comes to the branch at the middle, with the two slices left, are the preorder encodings of the two halves |
| Preorder.CountingEnds | blindi_subtrie/blindi_subtrie.hpp:252-327 | raising the counts of the ancestors with the new key on their left and inserting one entry gives the encoding of the trie with the key |
| Preorder.DiscountingEnds | blindi_subtrie/blindi_subtrie.hpp:458-487 | lowering the counts of the ancestors with the key on their left and deleting one entry gives the encoding of the trie without it |
| DiffScan.FirstStageMaximal | blindi_seqtree/blindi_seq.hpp:38-54 | the scan over the differences ends at a stored key that shares a longest prefix with the query, and at the query itself if it is stored |
| DiffScan.RankCorrect | blindi_seqtree/blindi_seq.hpp:63-88 | going from that key to the next difference below the first differing bit gives the rank of the query |
| DiffEdits.InsertAdjacent | blindi_seqtree/blindi_seq.hpp:143-191 | with the one new difference inserted, the array again holds the first differing bit of every two neighbours |
| DiffEdits.RemoveAdjacent | blindi_seqtree/blindi_seq.hpp:230-262 | so it does when the two differences around a removed key are replaced by the smaller one |
| LinearNode.LinearBlindiNode.BlindiNodeSearch | blindi_seqtree/blindi_seq.hpp:303-328 | a hit if and only if the key is stored; for a predecessor search the position of the largest key not above the query, or smaller than the node if and only if there is none |
| LinearNode.LinearBlindiNode.SearchBytes | blindi_seqtree/blindi_seq.hpp:303-328 | the same for stored byte keys that are compared byte by byte |
| LinearNode.LinearBlindiNode.Insert2BlindiNodeInPosition | blindi_seqtree/blindi_seq.hpp:143-191 | inserts the key at its rank and the difference next to it, and keeps the node exact |
| LinearNode.LinearBlindiNode.Insert2BlindiNodeWithKey | blindi_seqtree/blindi_seq.hpp:333-358 | reports overflow for a full node and a duplicate for a stored key, both without a change, and otherwise inserts the key at its rank |
| LinearNode.LinearBlindiNode.RemoveFromBlindiNodeInPosition | blindi_seqtree/blindi_seq.hpp:230-262 | removes exactly the key at the position, keeps the node exact, and tells whether it became empty |
| LinearNode.LinearBlindiNode.RemoveFromBlindiNodeWithKey | blindi_seqtree/blindi_seq.hpp:360-376 | removes the key if and only if it is stored, and reports an empty node, an underflow below half, or neither |
| LinearNode.LinearBlindiNode.SplitBlindiNode | blindi_seqtree/blindi_seq.hpp:195-225 | a full node keeps exactly its lower half, the new node gets exactly the upper half, both exact |
| LinearNode.LinearBlindiNode.MergeBlindiNodes | blindi_seqtree/blindi_seq.hpp:266-281 | two neighbouring nodes become one exact node of all keys, the right one unchanged |
| RangeMinima.ScanNarrows | blindi_seqtree/blindi_seqtree.hpp:2427-2475 | scanning a range from its start gives the same as looking at the smallest difference in it and scanning one side |
| RangeMinima.LandedRange | blindi_seqtree/blindi_seqtree.hpp:3322-3378 | the slot a search stopped at bounds where the rank of the query can lie |
| SeqTreeNode.SeqTreeBlindiNode.SearchFirstStage | blindi_seqtree/blindi_seqtree.hpp:2427-2502 | going down the tree and then scanning ends where scanning all differences ends |
| SeqTreeNode.SeqTreeBlindiNode.SearchSecondStageSeq | blindi_seqtree/blindi_seqtree.hpp:2519-2543 | the second scan, bounded by the slots passed, gives the rank, and smaller than the node if and only if that is 0 |
| SeqTreeNode.SeqTreeBlindiNode.SearchSecondStageTree | blindi_seqtree/blindi_seqtree.hpp:2546-2576 | going up the tree instead gives the same |
| SeqTreeNode.SeqTreeBlindiNode.SearchBlindiNode | blindi_seqtree/blindi_seqtree.hpp:3322-3380 | hit and rank as for the flat node, for every key |
| SeqTreeNode.SeqTreeBlindiNode.Insert2BlindiNodeInPosition | blindi_seqtree/blindi_seqtree.hpp:2581-2753 | inserts the key at its rank; differences and every slot of the tree stay exact |
| SeqTreeNode.SeqTreeBlindiNode.Insert2BlindiNodeWithKey | blindi_seqtree/blindi_seqtree.hpp:3387-3442 | reports overflow for a full node without a change, and otherwise inserts a key that is not stored at its rank |
| SeqTreeNode.SeqTreeBlindiNode.RemoveFromBlindiNodeInPosition | blindi_seqtree/blindi_seqtree.hpp:2911-3052 | removes exactly the key; the differences stay exact, and the tree does unless the first of two keys was removed |
| SeqTreeNode.SeqTreeBlindiNode.RemoveFromBlindiNodeWithKey | blindi_seqtree/blindi_seqtree.hpp:3501-3521 | removes the key if and only if it is stored, with the result codes of the flat node, and says exactly when the tree stays exact |
| SeqTreeNode.SeqTreeBlindiNode.TransferBtree2Blindi | blindi_seqtree/blindi_seqtree.hpp:187-261 | builds the differences of the given keys, and an exact tree if and only if there are at least two keys |
| SeqTreeNode.SeqTreeBlindiNode.SplitBlindiNode | blindi_seqtree/blindi_seqtree.hpp:2812-2909 | both halves of a full node, differences and trees, are exact |
| SeqTreeNode.SeqTreeBlindiNode.MergeBlindiNodes | blindi_seqtree/blindi_seqtree.hpp:3488-3499 | the merged node holds all keys in order, its differences and tree exact, also if one of the two was empty |
| SeqTreeTables.MergeTrees | blindi_seqtree/blindi_seqtree.hpp:3095-3146 | the tree of the joined differences is found from the two trees and the middle difference |
| SeqTreeTables.RemoveFromTree | blindi_seqtree/blindi_seqtree.hpp:2947-3049 | after a removal every slot again holds the place of the minimum of its range |
| TreeEdits.HalfTreePartial | blindi_seqtree/blindi_seqtree.hpp:2766-2782 | the slots of one half, put into an empty tree one by one, hold the minima of the ranges that the half gives them |
| TreeEdits.WinnerIsMin | blindi_seqtree/blindi_seqtree.hpp:3095-3146 | of the minima on both sides and the middle difference, the one chosen is the minimum of the whole |
| SubTrieNode.SubTrieBlindiNode.SearchFirstStage | blindi_subtrie/blindi_subtrie.hpp:177-193 | the walk over the preorder entries ends where descent in the trie ends |
| SubTrieNode.SubTrieBlindiNode.SearchSecondStage | blindi_subtrie/blindi_subtrie.hpp:208-236 | the second walk gives the rank of the query, and smaller than the node if and only if that is 0 |
| SubTrieNode.SubTrieBlindiNode.SearchBlindiNode | blindi_subtrie/blindi_subtrie.hpp:667-703 | a hit if and only if the key is stored; for a predecessor search its exact rank |
| SubTrieNode.SubTrieBlindiNode.Insert2BlindiNodeInPosition | blindi_subtrie/blindi_subtrie.hpp:240-328 | the encoding is that of the trie with the key inserted, the keys those with the key at its rank |
| SubTrieNode.SubTrieBlindiNode.Insert2BlindiNodeWithKey | blindi_subtrie/blindi_subtrie.hpp:710-748 | overflow, duplicate or insertion at the rank, exactly as the node's contents demand |
| SubTrieNode.SubTrieBlindiNode.RemoveFromBlindiNodeInPosition | blindi_subtrie/blindi_subtrie.hpp:453-498 | the encoding is that of the trie without the key, the keys those without it |
| SubTrieNode.SubTrieBlindiNode.RemoveFromBlindiNodeWithKey | blindi_subtrie/blindi_subtrie.hpp:800-824 | removes the key if and only if it is stored, and reports empty node, underflow or neither |
| SubTrieNode.SubTrieBlindiNode.SplitBlindiNode | blindi_subtrie/blindi_subtrie.hpp:335-451 | both new nodes are exact encodings of the two halves, the node itself unchanged |
| SubTrieNode.SubTrieBlindiNode.MergeBlindiNodes | blindi_subtrie/blindi_subtrie.hpp:785-796 | for nodes that fit into one, empty ones included, the merged node is the exact encoding of all keys in order if and only if the left one has room for two keys more, or at most one key, or the right one is empty, or the boundary bit equals the first left count; the right node is unchanged |
| SubTrieSplit.SplitEntries | blindi_subtrie/blindi_subtrie.hpp:335-451 | the entries of a trie with an even number of keys are split into the exact entries of its halves, left counts reduced by what moved off the path |
| SubTrieJoin.JoinEntries | blindi_subtrie/blindi_subtrie.hpp:502-595 | the entries of two tries are merged in place into the exact entries of their join, if and only if the store of the boundary bit stays in the branch bits, or there is no left count, or it leaves the first left count as it is |
| SubTrieJoin.OverwrittenDiffers | blindi_subtrie/blindi_subtrie.hpp:529-590 | with any other first left count the merge loop, where it ends, writes other counts than those of the joined trie |
| SubTrieJoin.FullNodeInput | blindi_subtrie/blindi_subtrie.hpp:529 | three keys in a node of four slots and one key behind them, for which the merge writes a wrong count |
| SubTrieJoin.FullNodeLuck | blindi_subtrie/blindi_subtrie.hpp:529 | three keys in a node of four slots and one key behind them, where the boundary bit equals the first left count |
| TrieLayout.ReferencedOnce | blindi_trie.hpp:608-697 | every slot of a laid-out trie is referenced exactly once, the root not at all |
| TrieLayout.OneReference | blindi_trie.hpp:608-697 | no two slots of a laid-out trie refer to the same one, and none to the root |
| TrieWalk.PathBitsIncrease | blindi_trie.hpp:310-362 | the branch bits strictly increase on every path from the root |
| TrieWalk.NextPath | blindi_trie.hpp:160-173 | leaving a path at its last small turn and going down on the small side from the large child gives the path of the next key |
| TrieWalk.PreviousPath | blindi_trie.hpp:131-145 | and the other way round that of the previous key |
| TrieNode.TrieBlindiNode.SearchFirstStage | blindi_trie.hpp:310-362 | records exactly the path to the key where blind descent ends |
| TrieNode.TrieBlindiNode.SearchSecondStage | blindi_trie.hpp:379-397 | cuts that path at the depth where the query leaves the trie |
| TrieNode.TrieBlindiNode.CheckSmallerThanNode | blindi_trie.hpp:114-128 | true if and only if the part of the trie that the query leaves at holds the first key of the node |
| TrieNode.TrieBlindiNode.BringItemEdgeSubtree | blindi_trie.hpp:276-296 | ends on the path of the largest key below the query, or of the first key if and only if there is none |
| TrieNode.TrieBlindiNode.SearchBlindiNode | blindi_trie.hpp:905-978 | a hit if and only if the key is stored; for a predecessor search its exact rank; the path that comes back is that of the key where descent ends, or of the predecessor, or of the first key if there is none, and ends at the position returned |
| TrieNode.TrieBlindiNode.GetMaxPosNode | blindi_trie.hpp:218-227 | the slot of the largest key |
| TrieNode.TrieBlindiNode.LowerBound | BwTree/benchmark/stx_blindi/blindi_btree_trie.h:1996-2004 | what `lower_bound` does in a leaf: with the path of the search it ends on the smallest key that is not below the query, and reports the end if and only if there is none |
| TrieNode.TrieBlindiNode.BringNextItem | blindi_trie.hpp:160-173 | turns the path of a key into the path of the next one |
| TrieNode.TrieBlindiNode.BringPreviousItem | blindi_trie.hpp:131-145 | turns the path of a key into the path of the previous one |
| TrieNode.TrieBlindiNode.BringSortedItems | blindi_trie.hpp:176-186 | lists the positions of all keys in key order |
| TrieNode.TrieBlindiNode.Insert2BlindiNodeInPosition | blindi_trie.hpp:401-459 | the relinked arrays lay out the trie with the key inserted, the keys those with the key at its rank |
| TrieNode.TrieBlindiNode.Insert2BlindiNodeWithKey | blindi_trie.hpp:985-1011 | overflow, duplicate or insertion at the rank, exactly as the node's contents demand |
| TrieNode.TrieBlindiNode.RemoveFromBlindiNodeInPosition | blindi_trie.hpp:608-697 | after unlinking the key and moving the last entries into the holes the arrays lay out the trie of the remaining keys |
| TrieNode.TrieBlindiNode.RemoveFromBlindiNodeWithKey | blindi_trie.hpp:1063-1082 | removes the key if and only if it is stored, and reports empty node, underflow or neither |
| TrieCopy.FillNodeArray | blindi_trie.hpp:462-523 | the walk with an explicit stack copies a trie into the first slots of other arrays, numbered in the order it meets them |
| TrieFill.Completed | blindi_trie.hpp:462-523 | when all keys have been placed the walk has copied the whole trie |
| TrieFill.OnTop | blindi_trie.hpp:470-520 | a step on the subtree on top of the stack is a step of the whole walk |
| TrieCut.ChainKept | blindi_trie.hpp:531-600 | one pass over the path to the middle links the branches that stay in a half past those that do not |
| TriePrune.PruneLaid | blindi_trie.hpp:531-600 | pointers rewired so lay out the trie cut at the middle key |
| TrieNode.TrieBlindiNode.SplitBlindiNode | blindi_trie.hpp:531-605 | both new nodes lay out exactly the halves of a full node, which is unchanged |
| TrieSplice.SpliceDone | blindi_trie.hpp:740-824 | when the boundary branch is in place the two spines spliced lay out the join of the two tries |
| TrieMerge.SpliceSpines | blindi_trie.hpp:740-824 | the loop over both paths writes exactly that |
| TrieNode.TrieBlindiNode.MergeBlindiNodes | blindi_trie.hpp:1050-1061 | the merged node lays out the trie of all keys in order, also if one of the two was empty |
| SortedSmallSet.SortedSmallSet.Insert | BwTree/src/sorted_small_set.h:49-80 | inserts a value at its lower bound unless an equal one is there |
| SortedSmallSet.SortedSmallSet.InsertNoDedup | BwTree/src/sorted_small_set.h:88-112 | inserts a value at its upper bound, behind the values it does not precede |
| SortedSmallSet.SortedSmallSet.PopFront | BwTree/src/sorted_small_set.h:129-134 | takes the first value off |
| LeafChain.ItemCountExact | BwTree/src/bwtree.h:1388-1589 | the item count that every node caches is the number of pairs its chain stores |
| LeafChain.NavigateLeafNode | BwTree/src/bwtree.h:4438-4599 | finds a pair if and only if the replayed chain holds it, merges included, and gives its place in the leaf that the next delta needs |
| LeafConsolidate.CollectAllValuesOnLeaf | BwTree/src/bwtree.h:4812-5123 | yields a sorted leaf without repeats that stores exactly what the chain stores, with the same bounds, and as many items as the chain has cached |
| LeafValues.NavigateLeafNode | BwTree/src/bwtree.h:4225-4417 | lists, without repeats, exactly the stored values of a key that the bounds do not exclude |
| LeafValues.LocalHintsLoseNothing | BwTree/src/bwtree.h:4225-4417 | if every record on the way down has its place in the leaf searched, the bounds are in the leaf and no value is lost |
| LeafValues.MergeFreeIsLocal | BwTree/src/bwtree.h:4225-4417 | which is so for every key on a chain without a merge |
| LeafLoss.HintsAreOldest | BwTree/src/bwtree.h:4322-4366 | the bounds are the places in the oldest record for a smaller and for a larger key on the way down |
| LeafLoss.FoundExactly | BwTree/src/bwtree.h:4225-4417 | the search keeps to the leaf and finds every item of a key that the leaf has if and only if these two places lie on the right sides of the first one |
| LeafLoss.InLeafExactly | BwTree/src/bwtree.h:4274-4302 | for every chain and key, the bounds of the search are positions in the leaf and in order if and only if these two places, where there are such records, are |
| LeafLoss.NothingLostExactly | BwTree/src/bwtree.h:4225-4417 | for every chain and key, no value is lost if and only if every item of the key in the leaf without a record on the way down lies at or behind the first of the two places, and, if there is such an item, the first item of the key does not lie behind the second |
| LeafLoss.ListsAllExactly | BwTree/src/bwtree.h:4225-4417 | what is lost is a stored value, so no stored value of a key is missing if and only if no value is lost |
| LeafLoss.RecordedIsFound | BwTree/src/bwtree.h:4372-4391 | a well-formed chain where the first place lies behind the only item of the key, and yet nothing is lost, since the item was deleted and inserted again |
| LeafLoss.ForeignHintOutside | BwTree/src/bwtree.h:4372-4391 | a well-formed chain where the search begins behind the end of the leaf |
| LeafLoss.ForeignHintCrosses | BwTree/src/bwtree.h:4372-4391 | a well-formed chain where the search begins behind its own end |
| LeafLoss.LossReached | BwTree/src/bwtree.h:4372-4391 | a run from the empty tree to a stored pair that is not found among the values of its key |
| LeafLoss.OutsideReached | BwTree/src/bwtree.h:4372-4391 | a run from the empty tree to a chain where the search would begin outside the leaf |
| LeafSplit.FindSplitPoint | BwTree/src/bwtree.h:2500-2545 | the split point is in front of the run of the middle key if more than the lower threshold of items lies there, else behind it under the same condition, else there is none; it never cuts a run of equal keys |
| LeafSplit.GetSplitSibling | BwTree/src/bwtree.h:2573-2625 | the sibling is the part from that point on; none is made if and only if the rule gives no point, and then no position with more than the lower threshold of items on both sides divides the leaf between two keys |
| LeafSplit.SplitDivides | BwTree/src/bwtree.h:2573-2625 | a split delta and its sibling divide range, items and cached count of the leaf between them |
| LeafSplit.MergeUndoesSplit | BwTree/src/bwtree.h:7313-7345 | merging the two again stores what the leaf stored, with its bounds and count |
| LeafLevel.StepKeeps | BwTree/src/bwtree.h:3143-3158 | every installation keeps the leaves linked, and changes the stored pairs only if it inserts or deletes, by that pair |
| LeafLevel.RangesPartition | BwTree/src/bwtree.h:6458-6609 | in every reachable state every key is in the range of exactly one linked leaf |
| LeafLevel.EveryRun | BwTree/src/bwtree.h:5897-5972 | from the empty tree, under any interleaving of insertion, deletion, consolidation, split, removal and merge steps, the leaves partition the key space and store exactly what was inserted and not deleted since |
| LeafLevel.LookupAnswers | BwTree/src/bwtree.h:7353-7433 | the leaf whose range holds a key answers for the whole tree |
| InnerChain.ItemCountExact | BwTree/src/bwtree.h:1479-1722 | the item count that an inner node caches is the number of its separators and one |
| InnerConsolidate.CollectAllSepsOnInner | BwTree/src/bwtree.h:3880-4192 | yields a base with exactly the separators, the leftmost child and the bounds of the chain, and as many items as it has cached |
| InnerSearch.NavigateInnerNode | BwTree/src/bwtree.h:3546-3729 | the child found begins at or below the key in every case, and is that of the upper bound in the consolidated list if the data deltas carry the neighbours of their keys |
| InnerSearch.LocateSeparatorByKey | BwTree/src/bwtree.h:3462-3487 | searching only the part of the base that the deltas leave gives what searching all of it gives |
| InnerSearch.FindSeparator | BwTree/src/bwtree.h:6901-7024 | finds the separator with a key if and only if the chain has one, and gives its place in the base |
| InnerSearch.ChoiceLeads | BwTree/src/bwtree.h:3546-3729 | the same as a statement about every chain: where the walk from the newest delta ends is a child that begins at or below the key, and the exact one if the deltas are exact |
| InnerAgree.AgreesIffExact | BwTree/src/bwtree.h:3546-3729 | searching a chain agrees with its consolidated form, now and at every earlier stage, if and only if every data delta carries the neighbours its key had when it was posted |
| TreeRouting.StepKeeps | BwTree/src/bwtree.h:5897-6285 | every step of any thread keeps every separator and every next link naming a node that begins at its key, and no node ever changes the key it begins at |
| TreeMeaning.StepMeaning | BwTree/src/bwtree.h:5897-6285 | what each step does to the separators: posting adds or removes exactly one, consolidation, removal and abort nodes change none, a split divides range, separators and count between the node and its sibling, a merge unites them, a new root has the old one and its sibling below it; nothing else in the tree changes |
| TreeMeaning.EveryRun | BwTree/src/bwtree.h:5897-6285 | in every run from the empty tree all of this holds at every step, leaves and inner nodes stay apart, and neither the root nor the first leaf is ever removed |
| TreeMeaning.ConsolidateInnerNode | BwTree/src/bwtree.h:6317-6333 | the consolidated form of an inner node may be installed in its place |
| TreeMeaning.ConsolidateLeafNode | BwTree/src/bwtree.h:6292-6310 | and so may that of a leaf |
| TreeMeaning.SplitLeafNode | BwTree/src/bwtree.h:6458-6524 | the sibling computed for a large leaf is the one that is prepared, and the split may then be installed |
| TreeMeaning.MergeLeafNodes | BwTree/src/bwtree.h:6546-6606 | a leaf of at most the lower threshold that is not the first may be removed, and then merged into its left sibling |
| TreeMeaning.SplitInnerNode | BwTree/src/bwtree.h:6610-6695 | an inner node of at least the upper threshold may be split, and if it is the root, the tree then grows by a level |
| TreeMeaning.MergeInnerNodes | BwTree/src/bwtree.h:6697-6783 | an inner node of at most the lower threshold that is not the root may be removed, and then merged into its left sibling |
| TreeMeaning.DropLeafAgain | BwTree/src/bwtree.h:6518-6541 | a prepared split of a leaf that loses the race leaves the tree as it was |
| TreeMeaning.DropAgain | BwTree/src/bwtree.h:6675-6695 | and so does one of an inner node |
| TreeMeaning.AbortAndBack | BwTree/src/bwtree.h:6786-6810 | an abort node put on and taken off again leaves the tree as it was |
| TreeTraverse.TraverseEnds | BwTree/src/bwtree.h:3232-3420 | a traversal through a changing tree, with snapshots from different times, that ends on a leaf and passes its bounds check ends on one whose range holds the key; it holds an installed leaf, and the inner node it came down through, which was installed, covers the key and has the leaf among its children; the root is never a leaf |
| TreeTraverse.MoveArrives | BwTree/src/bwtree.h:5285-5350 | every move ends on the current content of the node it leads to, and only going down changes the parent, to the snapshot that was left |
| TreeTraverse.NeverStuck | BwTree/src/bwtree.h:3232-3420 | unless the traversal is at a removed node or has come to the leaf of its key, there is a move on: skipping an abort node, going right, or going down |
| TreeTraverse.MayLookAgain | BwTree/src/bwtree.h:3188-3193 | whatever node a traversal is at, the mapping table has it, so it can be looked at again |
| TreeTraverse.MayGoLeft | BwTree/src/bwtree.h:5252-5290 | from a removed node a traversal can go to any child of the parent it came through that now ends at that node |
| TreeKinds.StepApart | BwTree/src/bwtree.h:5330-5350 | a NodeID that was that of an inner node, or of its right sibling, is never that of a leaf |
| TreeTraverse.ItemStepAllowed | BwTree/src/bwtree.h:7353-7433 | what the leaf says about the pair is true of the whole tree, and the delta it leads to may be installed if the leaf is still the same |
| TreeTraverse.NotLeftmostHasLowKey | BwTree/src/bwtree.h:5214-5226 | a node reached through a parent whose leftmost child it is not has a low key |
| TreeTraverse.PostInsertAllowed | BwTree/src/bwtree.h:6198-6275 | an index-term insertion prepared on the way down meets all conditions of the step |
| TreeTraverse.PostDeleteAllowed | BwTree/src/bwtree.h:6018-6061 | and so does an index-term deletion |
| ParentKids.SplitStep | BwTree/src/bwtree.h:6458-6524 | a split of a finished child leaves all conditions on the level in place, with the new sibling listed nowhere yet |
| ParentTerms.CommitStep | BwTree/src/bwtree.h:5716-5852 | installing an index-term delta prepared against the current parent keeps the parent chain exact and brings its separators up to date |
| ParentSplit.JoinStep | BwTree/src/bwtree.h:7276-7309 | merging two parents gives one with exact deltas over the children of both |
| ParentRuns.EveryRun | BwTree/src/bwtree.h:5878-6285 | in every run of the help-along protocol in which split keys are compared with the current parent, every parent chain is exact and searched as its consolidated form would be; the runs have no abort delta and no moment between the removed-child check and the split of a parent |
| ParentRuns.EveryRunLeads | BwTree/src/bwtree.h:5878-6285 | in the same runs the search of a parent whose children are at rest goes on to the child whose range holds the key |
| ParentFinish.EveryRunFinishes | BwTree/src/bwtree.h:5878-6285 | in the same runs every split or merge delta on a child can be finished at any moment, by one check or by posting its index term; afterwards the parent lists the separator of a split if and only if it is within its range, and that of a merge no more |
| ParentFinish.RunFollowed | BwTree/src/bwtree.h:6063-6275 | in any run a child with a split delta on top has the very sibling it was split into at its right, across parents |
| ParentEarly.EarlyRun | BwTree/src/bwtree.h:6198-6226 | a run with one comparison against an older parent, after which search and consolidated form disagree; parents split at 128 children and merge at 32 |
| EpochGc.FreeIsSafe | BwTree/src/bwtree.h:9425-9466 | whenever collection may free a node, no running operation holds it or started before it was unlinked |
| EpochGc.EveryRun | BwTree/src/bwtree.h:487-575 | in every run of any number of threads no node is freed that a running operation can still use, none is freed twice, and the counts equal the list lengths |
| EpochHistory.HeldIsSafe | BwTree/src/bwtree.h:487-575 | in every run: what an operation has come across, and what any thread has unlinked since the operation began, is not freed while the operation runs |
| EpochHistory.EpochIsShown | BwTree/src/bwtree.h:498-525 | every thread shows the epoch there was when it last read it to join or leave, or the highest value since it unregistered; the epoch counts its increases |
| EpochHistory.StartsExactly | BwTree/src/bwtree.h:9393-9416 | a thread may begin a collection if and only if its last step was to hand over a node and its list was then longer than the threshold, and it does nothing else before |
| EpochCollect.InProgress | BwTree/src/bwtree.h:554-572 | in every run a collection has read the epochs of the threads one after the other since it started, and its minimum is one of them and not above any |
| EpochCollect.CollectionEnds | BwTree/src/bwtree.h:9428-9466 | at its end it has read the epoch of every thread, and has freed exactly the leading entries of its list that are older than the smallest |
| EpochCollect.OldIsFreed | BwTree/src/bwtree.h:9428-9447 | a node is freed by every complete collection of the thread that handed it over during which all threads show later epochs than the one it was handed over in |
| EpochSolo.LoneCollection | BwTree/src/bwtree.h:9428-9466 | a collection that nobody disturbs runs to its end, and frees exactly the leading entries older than the smallest epoch shown |
| EpochSolo.LoneJoin | BwTree/src/bwtree.h:498-511 | a thread that is in the middle of nothing can begin an operation, and then shows the current epoch |
| EpochSolo.LoneWork | BwTree/src/bwtree.h:9393-9416 | an operation can come across a node, replace it and hand it over; the list grows by that node with the current epoch, and a collection is due if the list is longer than the threshold |
| EpochSolo.LoneGiveUp | BwTree/src/bwtree.h:6297-6308 | a node that could not be installed is handed over like one that was unlinked |
| EpochSolo.LoneLeave | BwTree/src/bwtree.h:498-511 | an operation can end, and its thread then shows the current epoch |
| EpochSolo.LoneUnregister | BwTree/src/bwtree.h:512-519 | a thread can unregister between operations; the minimum is then found among the other threads |
| GcList.GcMetaData.AddGarbageNode | BwTree/src/bwtree.h:9393-9416 | appends the node with its epoch to the linked list and counts it |
| GcList.GcMetaData.PerformGC | BwTree/src/bwtree.h:9428-9466 | frees exactly the leading entries older than the minimum, in order, and keeps list, tail and count consistent |
| GcList.CollectionIsFrees | BwTree/src/bwtree.h:9428-9466 | one collection is a sequence of free steps of the epoch protocol, after which that thread's collection may end |
| AtomicStack.EveryRun | BwTree/src/atomic_stack.h:205-363 | with one producer and any number of poppers: no pair of pointer and version is the top twice; what was pushed is what the writes of completed pushes were given, in order, and it is what was popped and what is left; a completed push puts its items on top, a successful pop takes the last one, nothing else changes the stack; a pop gives up if and only if the producer has the top or the stack is empty |
| AtomicStack.SwapSucceeds | BwTree/src/atomic_stack.h:342-357 | in every run a swap succeeds if and only if nobody has popped and the producer has not taken the top away since the popper loaded it |
| AtomicStack.LonePop | BwTree/src/atomic_stack.h:317-358 | a pop that nobody disturbs hands out the last item of a stack that is not empty |
| AtomicStack.LonePush | BwTree/src/atomic_stack.h:255-301 | a push for which there is room goes through, and its items lie on top |

## Left out

- SubTrieNode.SubTrieBlindiNode.RemoveFromBlindiNodeInPosition: the shift also reads the entry behind the live ones, in a full node behind the array (blindi_subtrie/blindi_subtrie.hpp:484-487), and never uses it; the model's shift ends one entry earlier.
- SubTrieNode.SubTrieBlindiNode.MergeBlindiNodes: the arrays of branch bits and left counts are taken to be adjacent and of entries of equal width, as declared in blindi_subtrie/blindi_subtrie.hpp:73-74 for keys and nodes whose indices fit one byte; the breathing layout is left out.
- SeqTreeNode.SeqTreeBlindiNode.Insert2BlindiNodeWithKey: a key that is already stored is inserted again by the code; the model does not admit it, since keys are distinct.
- LeafValues.NavigateLeafNode: bounds outside the leaf are not admitted, since the code then compares iterators outside an array; when that is so, and that it can be reached, is stated by `LeafLoss`.
- TrieNode.TrieBlindiNode.RemoveFromBlindiNodeInPosition: the value read but not used for a node with one key (blindi_trie.hpp:613) is not read; nor is the one in a merge with such a node (blindi_trie.hpp:753-754).
- TrieNode.TrieBlindiNode.LowerBound: the check for the end is made in every leaf; the source makes it in the last leaf only, and relies on the keys of the inner nodes in the others.
- `tree_traverse` of the trie node: a path is a sequence that is taken and returned, not a buffer with a length.
- The number of tree levels of the seqtree node is two, as the repository configures it; more levels are not modelled.
- Upsert in all nodes, insertion with combined split, and insertion into the flat node without the difference at hand.
- Breathing arrays, fingerprints, variable-length keys, string keys, and the disabled table of ranges.
- `get_mid_pos_node` of the trie node, the printing functions, the copying constructors.
- Exceptions from memory: allocation, inline allocation in a node, and freeing other than by epochs.
- The bloom filters of the leaf search are exact sets, as their confirming scan makes them.
- ParentLevel: the sizes at which the children split and merge, the abort delta on a parent, and the moment between the check that the child at a parent's split key is not removed and the installation of that split; a remove delta on a parent and its merge are one step.
- TreeRouting: which steps threads help with is not restricted, and the abort delta excludes nothing; there are no level numbers.
- TreeTraverse: that a traversal ends.
- `FindLeftSibling`: only that it returns a child that begins below the key.
- LeafLevel, TreeRouting: the code does not remove a node that is the leftmost child of its parent; the steps exclude only the first leaf and the root, so the runs include more.
- LeafLevel: when a chain is consolidated is left to the run; a thread may do so at any length.
- Wrap-around of the 64-bit epoch and version counters; `UpdateLastActiveEpoch` outside the entry and exit of an operation.
- Iterators, backward iteration, conditional insertion, tree destruction, the older epoch code.
- ARTOLC, the benchmarks, the index wrappers and the mcas stubs.
