# FM partitioning and B*-tree floorplanning, modelled in Dafny

This project models two tools of a physical-design course repository.

**The two-way Fiduccia–Mattheyses partitioner (`r08943094_pa1`).** It parses a
netlist of `NET <name> <cells…> ;` records into a hypergraph of cells and nets.
It seeds a split that puts the cells with id below N/2 in partition 1. It then
repeats FM rounds:

1. recount every net's cells per side;
2. compute each cell's gain;
3. file the cells in two gain-bucket lists (one per side, doubly linked nodes
   hanging off an array of slots indexed by gain);
4. move the highest-gain cell whose move keeps the balance, lock it, and update
   the gains of the cells on its nets with the four classic rules;
5. after every cell has moved once, roll back to the best prefix of moves.

Rounds stop once `MAX_EXTRA_ITERS` of them in a row bring no gain.

**The B*-tree floorplanner's integer core (`r08943094_pa2`).** It covers:
- rectangular blocks;
- the B*-tree and its edits (remove, append, rotate, swap, copy/replace);
- the horizontal contour (skyline) that blocks are dropped onto;
- packing the blocks along the tree in pre-order;
- the bounding box, and the legality, outline, overlap and ordering queries.

Both tools keep pointer structures: bucket-list nodes, tree nodes and parent
links. The model turns every pointer into an index of an arena (a `seq`), with
`Arena.Null` (−1) as the null pointer. Where the proofs need to know what a
pointer structure means, a ghost abstraction is carried alongside:
- one slot list per gain for the bucket lists;
- a rank per node, for the acyclic links of the tree.

Files:

| file | module | models |
|---|---|---|
| `wrappers.dfy` | `Wrappers` | `Result` and `Option`, for the source's fatal exits |
| `arena.dfy` | `Arena` | id sequences, the null index, occurrence counts |
| `hypergraph.dfy` | `Hypergraph` | the cell/net arenas and `parseInput` over tokens |
| `bucket_list.dfy` | `Buckets` | `BucketList` and the abstraction by slot lists |
| `cut_gain.dfy` | `Gain` | net counts, cell gains, cut size, moving cells |
| `fm_state.dfy` | `FmState` | the partitioner state and the set-up steps of a round |
| `fm_update.dfy` | `FmUpdate` | `move_cell`, `lock_cell`, `update_gain` |
| `fm_pass.dfy` | `FmPass` | top gains, balance, selection, one FM pass |
| `fm_driver.dfy` | `FmDriver` | rollback, cut estimate, count check, `partition` |
| `blocks.dfy` | `Blocks` | `Block` geometry |
| `bstar_tree.dfy` | `BStar` | `BST` and `Node` |
| `contour.dfy` | `Skyline` | `Contour` |
| `placement.dfy` | `Placement` | packing and queries of `Floorplanner` |

Main results:
- On a netlist whose nets list no cell twice, the gain `compute_cell_gain`
  gives a cell is exactly the cut reduction of moving it (`Gain.GainIsCutReduction`).
- `update_gain` keeps every free cell's gain exact and the bucket lists sound
  (`FmUpdate.UpdateGain`).
- A pass moves every cell exactly once and records the best prefix shorter
  than N (`FmPass.FmPartitionIteration`).
- `partition` ends with a cut no larger than the seed split's, the last
  `MAX_EXTRA_ITERS` rounds gainless and the reported cut size exact
  (`FmDriver.Partition`).
- The contour stays a left-to-right rectilinear skyline (`Skyline.UpdateShape`
  and `Skyline.UpdateSorted`).
- Packing the whole tree moves only the blocks of the visited nodes, and the
  bounding box holds them all. When no two nodes share a block, each side of
  the box is reached by one of them (`Placement.UpdateAllBlocks`).

## Model

| member | source | states |
|---|---|---|
| Hypergraph.OpenNetValid | r08943094_pa1/src/partitioner.cpp:24-29 | opening a `NET` record adds an empty net with the next id and keeps the hypergraph consistent |
| Hypergraph.NewCellValid | r08943094_pa1/src/partitioner.cpp:37-46 | a first-seen cell name gets the next cell id, enters the name table and its first pin keeps the hypergraph consistent |
| Hypergraph.AddPinValid | r08943094_pa1/src/partitioner.cpp:48-56 | a pin of an already known cell is recorded on both the cell and the net, keeping the two incidence lists in agreement pin for pin |
| Hypergraph.ParseCellsFrame | r08943094_pa1/src/partitioner.cpp:30-59 | the cell-name loop of a record touches only its own net and never renames or renumbers an existing cell or net |
| Hypergraph.ParseCellsValid | r08943094_pa1/src/partitioner.cpp:30-59 | the cell-name loop keeps the hypergraph consistent |
| Hypergraph.ParseCellsCollapse | r08943094_pa1/src/partitioner.cpp:30-59 | inside a record the net's cell list grows by the record's names with consecutive repeats dropped, every name being known afterwards |
| Hypergraph.ParseFromFrame | r08943094_pa1/src/partitioner.cpp:23-62 | later records only append nets and cells; earlier nets and name bindings stay as they were |
| Hypergraph.ParseFromValid | r08943094_pa1/src/partitioner.cpp:23-62 | the record loop keeps the hypergraph consistent |
| Hypergraph.ParseInput | r08943094_pa1/src/partitioner.cpp:15-64 | every token stream parses to a consistent hypergraph: ids in range, pin counts equal to net-list lengths, each cell listed on a net as often as the net lists the cell, names resolving both ways |
| Hypergraph.RecordCollapses | r08943094_pa1/src/partitioner.cpp:24-61 | a `NET` record creates the next net, named by the following token, whose cells are the record's names with adjacent repeats collapsed and non-adjacent repeats kept |
| Hypergraph.ConsecutiveRepeatDropped | r08943094_pa1/src/partitioner.cpp:49-56 | a record naming a, a, b, a gives its net the cells a, b, a |
| Buckets.Default | r08943094_pa1/src/partitioner.h:24-29 | a default bucket list has a slot for no gain at all |
| Buckets.New | r08943094_pa1/src/partitioner.h:30-35 | a bucket list built for pmax has a slot exactly for the gains −pmax..pmax, all empty |
| Buckets.FindGain | r08943094_pa1/src/partitioner.h:36 | a gain in range is reported present exactly when its slot holds a node |
| Buckets.Clear | r08943094_pa1/src/partitioner.h:80-85 | after `clear` every slot is empty and the size is zero, slot count and offset kept |
| Buckets.ClearRepr | r08943094_pa1/src/partitioner.h:80-85 | a cleared bucket list represents one empty list per slot |
| Buckets.EmptyIffZero | r08943094_pa1/src/partitioner.h:42-85 | for a bucket list that represents its lists, the size is zero exactly when every slot is empty |
| Buckets.Append | r08943094_pa1/src/partitioner.h:42-53 | the appended node becomes the slot's node, behind it hangs the previous slot node whose next link now points at it, no other node's links change (none at all when the slot was empty), and the size grows by one |
| Buckets.AttachChains | r08943094_pa1/src/partitioner.h:44-48 | linking an outside, link-free node in front of a slot list keeps every list correctly threaded and disjoint |
| Buckets.AppendRepr | r08943094_pa1/src/partitioner.h:42-53 | on a represented bucket list, `append` puts the node at the front of its gain's slot list |
| Buckets.Remove | r08943094_pa1/src/partitioner.h:54-79 | the slot passes to the node's `prev` exactly when the node is the slot's node; the node ends with no links and the size shrinks by one |
| Buckets.DetachOnly | r08943094_pa1/src/partitioner.h:58-60 | the only node of a slot list carries no links, so unlinking it changes no link |
| Buckets.DetachFront | r08943094_pa1/src/partitioner.h:62-66 | removing the slot's node hands the slot to the node behind it, and the rest of the list stays threaded |
| Buckets.DetachBack | r08943094_pa1/src/partitioner.h:68-71 | removing the oldest node clears the `prev` of the node ahead of it, and the rest of the list stays threaded |
| Buckets.DetachMiddle | r08943094_pa1/src/partitioner.h:72-77 | removing a middle node joins its two neighbours, and the list without it stays threaded |
| Buckets.DetachChains | r08943094_pa1/src/partitioner.h:54-79 | whichever case applies, the node's list loses exactly that node, the other lists keep their links, and the slot's new node is the one the source picks |
| Buckets.RemoveRepr | r08943094_pa1/src/partitioner.h:54-79 | on a represented bucket list, `remove` deletes the node from its slot's list |
| Buckets.AppendThenRemove | r08943094_pa1/src/partitioner.h:42-79 | appending a link-free node and removing it again at the same gain gives back the same bucket list and links |
| Gain.Term | r08943094_pa1/src/partitioner.cpp:192-196 | a net adds +1 to a cell's gain exactly when the cell is its side's only cell and the net is cut, and −1 exactly when the other side is empty and the cell is not its side's only cell; a cell alone on its net gets 0 |
| Gain.CountSplit | r08943094_pa1/src/partitioner.cpp:173-179 | the two side counts of a net's recount add up to the length of its cell list |
| Gain.RecountFlip | r08943094_pa1/src/partitioner.cpp:397-403 | moving a cell listed o times on a net moves o from the old side's recount to the new side's |
| Gain.NetCutFlip | r08943094_pa1/src/partitioner.cpp:192-196 | moving a cell listed once on a net changes that net's cut status by exactly the net's gain term |
| Gain.CutDrop | r08943094_pa1/src/partitioner.cpp:189-197 | over any prefix of the nets, the cut reduction of moving a cell is the sum of its gain terms |
| Gain.GainIsCutReduction | r08943094_pa1/src/partitioner.cpp:182-198 | on a consistent hypergraph whose nets list no cell twice, the gain of every cell equals the drop in cut size if it moved |
| Gain.RepeatParses | r08943094_pa1/src/partitioner.cpp:24-59 | the record `NET n a b a ;` gives net n the cells a, b, a and cell a the net n twice |
| Gain.RepeatedCellMisgains | r08943094_pa1/src/partitioner.cpp:189-196 | on that parsed hypergraph, with a in partition 0 and b in partition 1, a's gain is 0 although moving it drops the cut by 1 |
| Gain.CutFromCountsExact | r08943094_pa1/src/partitioner.cpp:413-419 | with counts equal to recounts, counting nets with cells on both sides gives the true cut size |
| FmState.Start | r08943094_pa1/src/partitioner.h:92-100 | after construction every cell is in partition 0 and unlocked, and both side sizes are zero |
| FmState.InitializePartitions | r08943094_pa1/src/partitioner.cpp:112-129 | the cells with id below N/2 are toggled and counted in partition 1 and the rest counted in partition 0; the bucket lists are sized for the largest pin count, which bounds every cell's pin count and is reached by one cell (or is 0) |
| FmState.SeedSplit | r08943094_pa1/src/partitioner.cpp:112-129 | from the parsed state, exactly the cells with id below N/2 end in partition 1, and the side sizes count the cells of each side |
| FmState.ResetAllParameters | r08943094_pa1/src/partitioner.cpp:163-180 | the pass bookkeeping is zeroed, the unlocked counts restart from the side sizes, and every net's counts equal a recount of its cell list; nothing else changes |
| FmState.ComputeCellGain | r08943094_pa1/src/partitioner.cpp:182-198 | every cell's gain is replaced by the gain its nets' stored counts give it, and nothing else changes |
| FmState.RemoveSide | r08943094_pa1/src/partitioner.h:54-79 | removing a filed cell from its side's slot removes exactly that cell from the lists, the other side untouched |
| FmState.AppendSide | r08943094_pa1/src/partitioner.h:42-53 | appending an unfiled cell adds exactly that cell to its slot's list, the other side untouched |
| FmState.PutSound | r08943094_pa1/src/partitioner.cpp:204-205 | appending a cell at an in-range gain and freeing it keeps the bucket lists filing exactly the free cells |
| FmState.TakeSound | r08943094_pa1/src/partitioner.cpp:408-410 | removing a free cell from its slot and locking it keeps the bucket lists filing exactly the free cells |
| FmState.FileCell | r08943094_pa1/src/partitioner.cpp:204-208 | one turn of the filling loop files cell c and grows the total size by one |
| FmState.InitializeBucketList | r08943094_pa1/src/partitioner.cpp:200-209 | afterwards each free cell is filed at its side's slot for its gain, no other cell is filed, and the two sizes add up to N |
| FmUpdate.Shift | r08943094_pa1/src/partitioner.cpp:397-403 | each net loses from the old side and gains on the new side as many counts as it is listed in the moved cell's net list |
| FmUpdate.MoveCell | r08943094_pa1/src/partitioner.cpp:389-404 | the cell changes side, the side sizes follow, the old side's unlocked count drops, the cell is pushed on the move stack unless the move is a reversal |
| FmUpdate.MoveKeepsCounted | r08943094_pa1/src/partitioner.cpp:389-404 | after a move every net's counts still equal a recount under the new partition |
| FmUpdate.MoveKeepsSizes | r08943094_pa1/src/partitioner.cpp:392-395 | after a move the side sizes still count the cells of each side |
| FmUpdate.LockCell | r08943094_pa1/src/partitioner.cpp:406-411 | the cell is locked and leaves the bucket list of the side it came from, that list shrinking by one and the other untouched |
| FmUpdate.MoveLockSound | r08943094_pa1/src/partitioner.cpp:229-230 | moving then locking a free cell keeps the bucket lists filing exactly the free cells |
| FmUpdate.Rebucket | r08943094_pa1/src/partitioner.cpp:324-326 | removing a free cell, setting its gain and appending it again keeps the lists sound and both sizes |
| FmUpdate.BumpAll | r08943094_pa1/src/partitioner.cpp:321-327 | every free cell of the net, and no other cell, steps its gain by delta, and the lists stay sound |
| FmUpdate.FirstFree | r08943094_pa1/src/partitioner.cpp:330-335 | the scan finds no cell exactly when the net has no free cell on that side, and otherwise a free cell of the net on that side |
| FmUpdate.GainOverUpdate | r08943094_pa1/src/partitioner.cpp:192-196 | changing one net's counts changes a cell's gain by that net's term change, once per listing |
| FmUpdate.BeforeCell | r08943094_pa1/src/partitioner.cpp:319-342 | the before-move rules (+1 to all when the new side was empty, −1 to the sole new-side cell when it held one) are exactly the gain change the net's first count change demands |
| FmUpdate.AfterCell | r08943094_pa1/src/partitioner.cpp:347-370 | the after-move rules (−1 to all when the old side empties, +1 to the sole old-side cell when one is left) are exactly the gain change the net's second count change demands |
| FmUpdate.ApplyRule | r08943094_pa1/src/partitioner.cpp:319-342 | one rule of the update changes each free cell's gain by the rule's amount and keeps the lists sound and both sizes |
| FmUpdate.UpdateBefore | r08943094_pa1/src/partitioner.cpp:319-342 | gains exact for the counts before the move become exact for the counts with the moved cell already on its new side |
| FmUpdate.UpdateAfter | r08943094_pa1/src/partitioner.cpp:343-370 | gains exact for those midway counts become exact for the counts after the move |
| FmUpdate.UpdateNet | r08943094_pa1/src/partitioner.cpp:312-370 | updating one net of the moved cell makes every free gain exact for that net's new counts |
| FmUpdate.NextNet | r08943094_pa1/src/partitioner.cpp:311-371 | one turn of the loop over the moved cell's nets takes one more net out of the pending pre-move state |
| FmUpdate.MovePending | r08943094_pa1/src/partitioner.cpp:229-230 | gains exact before moving and locking a cell are exact for the pre-move counts of the cell's nets |
| FmUpdate.UpdateGain | r08943094_pa1/src/partitioner.cpp:307-372 | on a hypergraph whose nets list no cell twice, every free cell ends with exactly the gain `compute_cell_gain` would give it under the new counts, the bucket lists stay sound, and only gains and lists change |
| FmPass.TopGain | r08943094_pa1/src/partitioner.cpp:256-258 | the gain found is the highest non-empty slot at or below the start, or −pmax |
| FmPass.UpdateMaxCellGain | r08943094_pa1/src/partitioner.cpp:253-263 | each side's maximum gain is its highest non-empty slot, or −pmax when the side is empty |
| FmPass.TopIsMax | r08943094_pa1/src/partitioner.cpp:253-263 | that gain bounds every free cell of the side, the node in its slot is a free cell of that side with that gain, and an empty top slot means no free cell |
| FmPass.BalanceIsUpperBound | r08943094_pa1/src/partitioner.cpp:297-305 | when the sizes add up to N, the two-sided bound reduces to the new side's size plus one staying below N(1+bf)/2 |
| FmPass.NeverStuck | r08943094_pa1/src/partitioner.cpp:297-305 | if N·bf > 2, a move off at least one of the two sides is balanced |
| FmPass.Select | r08943094_pa1/src/partitioner.cpp:265-295 | no cell is returned exactly when both top slots are empty, and a returned cell is one of the two top nodes |
| FmPass.SelectIsBest | r08943094_pa1/src/partitioner.cpp:265-295 | over sound lists: nothing picked iff every cell is locked; the balance assertion fails iff both sides have free cells and neither move is balanced; a pick is free, has its side's top gain, is balanced when the other side has free cells, and is the best free cell overall (ties to partition 0) when both moves are balanced |
| FmPass.GainIsCut | r08943094_pa1/src/partitioner.cpp:231 | with exact counts and gains, a free cell's gain is the cut reduction of moving it |
| FmPass.ReductionsMeaning | r08943094_pa1/src/partitioner.cpp:231-232 | entry k of the accumulated gains is the cut reduction of the first k moves |
| FmPass.Advance | r08943094_pa1/src/partitioner.cpp:231-240 | the move count and accumulated gain step, the best prefix changing only in those two counters |
| FmPass.RecordSnoc | r08943094_pa1/src/partitioner.cpp:235-240 | the best-prefix rule keeps the record: the best prefix is empty or shorter than N, no prefix shorter than N beats it, and every later one shorter than N is worse, so of equally good prefixes the latest is kept (`>=`) |
| FmPass.RecordStep | r08943094_pa1/src/partitioner.cpp:229-240 | a move with its gain accumulated keeps the pass record about the moves so far |
| FmPass.StepSound | r08943094_pa1/src/partitioner.cpp:229-230 | moving and locking keeps the lists sound, pushes the cell and drops the total size by one |
| FmPass.StepGains | r08943094_pa1/src/partitioner.cpp:229-230 | after moving and locking, counts are exact and gains are exact for the moved cell's pending nets |
| FmPass.MoveStep | r08943094_pa1/src/partitioner.cpp:229-248 | one selected move keeps lists sound, counts and gains exact and the pass record, pushes the cell, and drops the total size by one |
| FmPass.EmptyAllLocked | r08943094_pa1/src/partitioner.cpp:216 | with sound lists, two empty bucket lists mean every cell is locked |
| FmPass.PassTurn | r08943094_pa1/src/partitioner.cpp:219-249 | a turn keeps the pass invariant; no pick means all cells are locked; the balance assertion fails only when N·bf ≤ 2 |
| FmPass.SelectTurn | r08943094_pa1/src/partitioner.cpp:219-226 | the selection changes only the top gains and keeps the pass invariant; no pick means all cells are locked; a pick is a free cell; the balance assertion fails only when N·bf ≤ 2 |
| FmPass.UnbalancedBound | r08943094_pa1/src/partitioner.cpp:276-280 | when neither side's top cell can move within the balance bounds, N·bf ≤ 2 |
| FmPass.FmPartitionIteration | r08943094_pa1/src/partitioner.cpp:211-251 | a pass ends with every cell moved once and locked, the invariant and best-prefix record kept; it fails only when N·bf ≤ 2 |
| FmDriver.Seed | r08943094_pa1/src/partitioner.cpp:114-120 | the seed partition puts exactly the cells with id below N/2 in partition 1 |
| FmDriver.EstimateCutSize | r08943094_pa1/src/partitioner.cpp:413-419 | the estimate lies in 0..#nets and, with exact counts, is the true cut size |
| FmDriver.CheckNetPartCount | r08943094_pa1/src/partitioner.cpp:421-431 | the check passes exactly when every net's stored counts equal its recount |
| FmDriver.UnlockAll | r08943094_pa1/src/partitioner.cpp:377-379 | every cell ends unlocked and nothing else changes |
| FmDriver.FlipFlip | r08943094_pa1/src/partitioner.cpp:384 | moving a cell back gives back the partition |
| FmDriver.FlipAllPop | r08943094_pa1/src/partitioner.cpp:381-386 | undoing the last move lands on the partition of the shorter move sequence |
| FmDriver.PopKeeps | r08943094_pa1/src/partitioner.cpp:381-386 | one pop of the rollback keeps counts, sizes and the move sequence consistent with one move fewer |
| FmDriver.RestoreBestMove | r08943094_pa1/src/partitioner.cpp:374-387 | the stack is cut to the best prefix and the partition is the seed of the pass with exactly those moves applied; every cell is free; counts and sizes stay exact; a second call is a no-op |
| FmDriver.GainsInRange | r08943094_pa1/src/partitioner.cpp:182-209 | freshly computed gains are bounded by the largest pin count, so every cell has a bucket slot |
| FmDriver.RoundStart | r08943094_pa1/src/partitioner.cpp:85-89 | a freshly set-up round satisfies the pass invariant with an empty record |
| FmDriver.RoundEndCut | r08943094_pa1/src/partitioner.cpp:231-240 | the best prefix cuts maxAccGain fewer nets than the pass's start, no more than any prefix shorter than N, and fewer than any longer prefix shorter than N |
| FmDriver.RoundSetup | r08943094_pa1/src/partitioner.cpp:85-89 | the set-up steps give exact counts and gains, every cell filed, and an empty pass record |
| FmDriver.FmRound | r08943094_pa1/src/partitioner.cpp:85-97 | a round moves every cell once and ends on the best prefix shorter than N, which is at least as good as the round's start and any other such prefix and strictly better than any longer one: of tied prefixes the latest |
| FmDriver.EndRound | r08943094_pa1/src/partitioner.cpp:93-97 | once every cell has moved, the round is left on the latest best prefix shorter than N, with the cells unlocked and the counts exact |
| FmDriver.ExtraAfter | r08943094_pa1/src/partitioner.cpp:100-106 | the extra-iteration counter is the number of gainless rounds at the end, the round before them having gained |
| FmDriver.Partition | r08943094_pa1/src/partitioner.cpp:66-110 | the final partition cuts no more nets than the seed split, the reported cut size is exact, and the last `MAX_EXTRA_ITERS` rounds gained nothing |
| Blocks.Make | r08943094_pa2/src/module.h:45-49 | a new block keeps its two sides with the longer one as width, so its orientation flag is clear |
| Blocks.Top | r08943094_pa2/src/module.h:56 | the upper-right corner lies one width right of and one height above the lower-left corner |
| Blocks.Rotate | r08943094_pa2/src/module.h:61 | a turn swaps the two sides and flips the orientation of a non-square block; position, id and node stay |
| Blocks.RotateTwice | r08943094_pa2/src/module.h:61 | turning a block twice gives back the block |
| BStar.New | r08943094_pa2/src/BSTree.h:13 | a new tree has no root and cost `INT_MAX` |
| BStar.NodeFor | r08943094_pa2/src/module.h:90-98 | a new detached node carries the block's id and orientation, and the block records it as its node |
| BStar.Clone | r08943094_pa2/src/module.h:99-105 | a copied node has the same id and orientation and no links |
| BStar.Remove | r08943094_pa2/src/BSTree.cpp:5-35 | the root and nodes with two children are declined; otherwise the node ends detached and the links stay in the arena; the fatal exit only happens when the parent points at neither slot |
| BStar.RemoveSplices | r08943094_pa2/src/BSTree.cpp:5-35 | on a consistent tree, `remove` never exits and splices the node out: pointers to it lead to its child, and the tree stays consistent |
| BStar.BypassKeepsConsistent | r08943094_pa2/src/BSTree.cpp:5-35 | splicing a node with at most one child out of a consistent tree leaves it consistent |
| BStar.Append | r08943094_pa2/src/BSTree.cpp:37-53 | it succeeds exactly when there is no parent or the chosen slot is empty; then the node becomes root or fills the slot with its parent set, else nothing changes |
| BStar.AppendKeepsConsistent | r08943094_pa2/src/BSTree.cpp:37-53 | hanging a parentless non-root node in an empty slot keeps a consistent tree consistent |
| BStar.LeafRoundTrip | r08943094_pa2/src/BSTree.cpp:5-53 | removing a leaf and appending it back into the same slot gives back the tree |
| BStar.Rotate | r08943094_pa2/src/BSTree.cpp:55-58 | only the node's wanted orientation flips |
| BStar.RotateTwice | r08943094_pa2/src/BSTree.cpp:55-58 | rotating a node twice gives back the tree |
| BStar.Swap | r08943094_pa2/src/BSTree.cpp:60-68 | the two nodes trade id and orientation while every link of every node stays |
| BStar.SwapTwice | r08943094_pa2/src/BSTree.cpp:60-68 | swapping twice gives back the tree |
| BStar.SwapKeepsConsistent | r08943094_pa2/src/BSTree.cpp:60-68 | a swap keeps a consistent tree consistent |
| BStar.Rightmost | r08943094_pa2/src/BSTree.h:16-20 | the walk ends at the last node of the root's right spine, a node without a right child |
| BStar.ResetNumNodes | r08943094_pa2/src/BSTree.h:34 | the visit counter is zero and nothing else changes |
| BStar.IncNode | r08943094_pa2/src/BSTree.h:35 | the visit counter grows by one and nothing else changes |
| BStar.CountAfterReset | r08943094_pa2/src/BSTree.h:34-35 | a reset followed by k visits leaves the counter at k |
| BStar.Copy | r08943094_pa2/src/BSTree.cpp:90-97 | copying appends new nodes only, fills the chosen slot of the new parent (or sets the root), and keeps every existing node other than the parent |
| BStar.CopyShape | r08943094_pa2/src/BSTree.cpp:90-97 | the copied nodes form a block whose shape, ids, orientations and left/right placement are those of the original subtree |
| BStar.CopyConsistent | r08943094_pa2/src/BSTree.cpp:90-97 | copying into a tree whose parent and child links agree keeps them agreeing: each new node's parent is the node whose slot it fills |
| BStar.ReplaceAsWritten | r08943094_pa2/src/BSTree.cpp:71-80 | the cost is taken over; an empty source tree leaves no nodes but the old root value |
| BStar.ReplaceEmptyDangles | r08943094_pa2/src/BSTree.cpp:71-88 | replacing by an empty tree leaves the root pointing at a discarded node |
| BStar.Replace | r08943094_pa2/src/BSTree.cpp:71-97 | the cost is taken over and the root is never dangling: null for an empty source, else the first copied node |
| BStar.ReplaceCopies | r08943094_pa2/src/BSTree.cpp:71-97 | after `replace` the tree has the shape, ids, orientations and left/right placement of the other tree, and every parent link agrees with the child links |
| Skyline.Reset | r08943094_pa2/src/BSTree.h:60-67 | the skyline becomes flat at height 0 from 0 to the `INT_MAX` sentinel, running left to right and rectilinear |
| Skyline.ScanSpan | r08943094_pa2/src/BSTree.cpp:117-127 | a corner is taken only if one lies in the span; the height is one of the spanned corners' heights (or 0) and bounds every corner strictly inside |
| Skyline.HeightAt | r08943094_pa2/src/BSTree.cpp:129-134 | the height is that of the last corner not right of x, or 0 when every corner is right of x |
| Skyline.FindBlkY | r08943094_pa2/src/BSTree.cpp:111-136 | the resting height is at or above every corner strictly within the block's span; it is a spanned corner's height (or 0) when some corner lies in the span, and the skyline's height at x otherwise |
| Skyline.First | r08943094_pa2/src/BSTree.cpp:152-159 | the scan stops at the first corner at or right of the block's right edge |
| Skyline.Drop | r08943094_pa2/src/BSTree.cpp:152-159 | exactly the corners strictly between the block's two edges are taken out |
| Skyline.Splice | r08943094_pa2/src/BSTree.cpp:152-164 | erasing the spanned corners and inserting the block's outline keeps the last corner and a left-to-right order |
| Skyline.CompactSorted | r08943094_pa2/src/BSTree.cpp:166-191 | shrinking the vertical runs keeps a skyline running left to right |
| Skyline.FillContinuous | r08943094_pa2/src/BSTree.cpp:197-209 | after the missing corners are inserted, neighbouring corners always share x or y |
| Skyline.FillSorted | r08943094_pa2/src/BSTree.cpp:197-209 | inserting the missing corners keeps a skyline running left to right |
| Skyline.Compact | r08943094_pa2/src/BSTree.cpp:166-191 | shrinking the vertical runs only takes corners out and keeps the last corner, the `INT_MAX` sentinel |
| Skyline.Fill | r08943094_pa2/src/BSTree.cpp:197-209 | inserting the missing corners keeps the first and last corners in place |
| Skyline.MaxY | r08943094_pa2/src/BSTree.cpp:193-196 | the recorded height bounds every corner and is reached by one, or is 0 |
| Skyline.Update | r08943094_pa2/src/BSTree.cpp:138-210 | `update` leaves the vertical list alone and keeps the skyline's last corner |
| Skyline.UpdateShape | r08943094_pa2/src/BSTree.cpp:138-210 | after `update` the skyline is rectilinear and its recorded maximum height is the height of its highest corner (or 0) |
| Skyline.UpdateSorted | r08943094_pa2/src/BSTree.cpp:138-210 | a skyline running left to right still does so after a block of non-negative width is merged in |
| Skyline.UpdateEvolves | r08943094_pa2/src/BSTree.cpp:138-210 | `update` keeps the skyline rectilinear, left to right when it was and the block's width is non-negative, and ending at the same corner |
| Skyline.Check | r08943094_pa2/src/BSTree.cpp:212-230 | the check passes exactly when no corner steps back in x and every two neighbours share x or y |
| Placement.PlaceLegal | r08943094_pa2/src/floorplanner.h:47-51 | legal exactly when the block's right edge at the anchor its parent and side give stays within the outline's width |
| Placement.PlaceLegalPredicts | r08943094_pa2/src/floorplanner.h:47-51 | `place_legal` predicts whether the block, once placed, ends within the outline's width |
| Placement.Area | r08943094_pa2/src/floorplanner.h:56 | the area is non-negative for a non-negative box and zero exactly when one side is zero |
| Placement.LegalArea | r08943094_pa2/src/floorplanner.h:55-56 | a legal chip has at most the outline's area |
| Placement.SetAlpha | r08943094_pa2/src/floorplanner.h:114-121 | a weight in [0, 1] is stored and nothing else changes; any other stops with the source's message |
| Placement.CompareByWidth | r08943094_pa2/src/floorplanner.cpp:210-218 | wider blocks come first, and of equally wide blocks the taller |
| Placement.CompareStrictWeak | r08943094_pa2/src/floorplanner.cpp:210-218 | the comparison is irreflexive, asymmetric and transitive, and leaves exactly the blocks with equal sides unordered |
| Placement.OverlapSymmetric | r08943094_pa2/src/floorplanner.cpp:400-419 | the overlap test does not depend on the order of the two blocks |
| Placement.EdgeTouchNoOverlap | r08943094_pa2/src/floorplanner.cpp:400-419 | blocks of positive size that only share an edge are not reported |
| Placement.OverlapSound | r08943094_pa2/src/floorplanner.cpp:400-419 | an overlap reported between blocks of positive size is real: their interiors meet |
| Placement.CrossMissed | r08943094_pa2/src/floorplanner.cpp:400-419 | a wide flat block crossing a tall thin one overlaps it without being reported |
| Placement.CheckOutline | r08943094_pa2/src/floorplanner.cpp:369-382 | the check passes exactly when every block's top corner is inside the outline; every collected id is that of a block sticking out, and every block sticking out has its id collected |
| Placement.PlaceBlock | r08943094_pa2/src/floorplanner.cpp:28-52 | the root block goes to the origin, a right child to its parent's x and a left child to its parent's right edge, at the height `find_blk_y` gives; only its position changes and the contour absorbs it |
| Placement.Turned | r08943094_pa2/src/floorplanner.cpp:84-85 | the block is turned, if need be, to stand as its node wants, keeping its sides |
| Placement.Visit | r08943094_pa2/src/floorplanner.cpp:81-100 | one visit counts the node and packs its block alone: at the origin for the root, else at the x its parent's block and side give it, read after the node's own block is turned, and resting on the contour as it stood; the contour absorbs the block and the bounding box grows just enough to hold it |
| Placement.SharedBlockTurnsFirst | r08943094_pa2/src/floorplanner.cpp:83-85 | a left child sharing its parent's block lands at the right edge of the block as turned for the child |
| Placement.UpdateBlockDfs | r08943094_pa2/src/floorplanner.cpp:79-107 | the blocks of the subtree are packed in pre-order, each node counted once; a self-linked node stops the walk; only those blocks move, they lie in the bounding box, the root's block sits at the origin and any other at the x its parent's block and side give it, and the contour keeps its shape |
| Placement.Subtrees | r08943094_pa2/src/floorplanner.cpp:105-106 | packing the left subtree and then the right one packs the two pre-orders one after the other, each block at the x its parent gives it |
| Placement.RightSubtree | r08943094_pa2/src/floorplanner.cpp:106 | once the left subtree is packed, packing the right one completes the two pre-orders |
| Placement.JoinSubtrees | r08943094_pa2/src/floorplanner.cpp:105-106 | the left subtree's run followed by the right subtree's packs their concatenated pre-orders |
| Placement.Below | r08943094_pa2/src/floorplanner.cpp:100-106 | after a node's own visit, the self-link check and its two subtrees pack its whole pre-order |
| Placement.AnchoredJoin | r08943094_pa2/src/floorplanner.cpp:104-106 | positions stated for two runs packed one after the other hold for the joined run, for blocks not packed again later |
| Placement.PackedRoot | r08943094_pa2/src/floorplanner.cpp:88-89 | when the run starts at the root and packs no block twice, the root's block ends at the origin |
| Placement.PackedChild | r08943094_pa2/src/floorplanner.cpp:36-44 | when no block is packed twice, a node packed after its parent ends at its parent's x as a right child and at its parent's right edge as a left child |
| Placement.Cleared | r08943094_pa2/src/floorplanner.cpp:57-60 | the contour is reset, the node counter and bounding box zeroed, and blocks and tree kept |
| Placement.UpdateAllBlocks | r08943094_pa2/src/floorplanner.cpp:55-77 | the whole tree is packed from an empty box, the root's block at the origin and each other at the x its parent gives it; the node count must equal the block count; the contour check never fails for blocks of non-negative size; the final contour is left-to-right and rectilinear; the tree is annotated with the given cost and otherwise only its node counter changes |
| Placement.LegalIffOutline | r08943094_pa2/src/floorplanner.cpp:369-382 | once every block is packed exactly once, `is_legal` and `check_outline` agree |

## Left out

- Reading files, the command line, printing, timing and the verbosity switches are not modelled. `parseInput` is modelled over the whitespace-separated tokens, after the leading balance-factor token.
- Hypergraph.ParseInput: the balance factor's `stod` conversion is not modelled; the factor is a `real` parameter of the pass.
- `compute_net_part_count` is not modelled on its own. Its counts are the recount that `reset_all_parameters` redoes at the start of every round, modelled by FmState.ResetAllParameters.
- FmPass.BalanceIsUpperBound: `check_balance` is computed exactly over `real`, not in `double`.
- FmUpdate.UpdateGain needs nets that list no cell twice; the parser can produce such a net when a name repeats non-adjacently. Under that precondition the four rules are exact; without it they can drift from the true gains.
- FmPass.FmPartitionIteration, FmDriver.FmRound and FmDriver.Partition carry the same duplicate-free precondition. Without it the gains are not cut reductions (Gain.RepeatedCellMisgains), so the model does not show that `partition` ends for such input.
- FmDriver.Partition: the unused balance coefficient `BC` of the pass is not modelled.
- Buckets.Default and Buckets.New: the source leaves `size` uninitialised; the model takes it as a parameter.
- Integer widths are unbounded. No 32-bit overflow is modelled: not in gains or counts, not in block coordinates, not in the area product.
- Placement.Area: the 32-bit product `chip_width * chip_height` is not modelled.
- The floorplanner's floating-point part is not modelled: wirelength (`calculate_wl`), cost, normalized cost and its sampling, aspect ratios. The tree's cost annotation is carried as an opaque `real`; `update_all_blocks` stores the normalized cost it is given (Placement.UpdateAllBlocks takes it as a parameter).
- Simulated annealing and random moves are not modelled: `SA`, `random_operation`, the random engine, `backup_floorplan`, `restore_floorplan`, `restore_block_node`.
- Also not modelled: `initial_floorplan`, `get_highest_placed_block_ids`, block and net parsing, and the terminal and net lists of the floorplanner.
- `delete_tree` is modelled as dropping the whole node arena, because memory is not modelled.
- The debug printers (`BST::print`, `Contour::print`, `print_bst_dfs`, `print_placed_blocks`) and `check_overlap`'s printing loop are not modelled. `block_overlap` is modelled as Placement.Overlap.
- BStar.New: the source leaves the visit counter uninitialised; the model starts it at 0.
- BStar.Remove requires a non-root node with at most one child to have a parent node, because the source dereferences it.
- Skyline.Update requires a corner at or right of the block's right edge, because the source dereferences it. The erase at the first corner (an iterator moved before `begin`) is undefined behaviour and not modelled.
- Placement.PlaceBlock: when the contour has no such corner, the model returns its own `Overrun` error; the source has undefined behaviour there.
- Skyline.FindBlkY: when some corner lies in the span, the height is characterised only as a spanned corner's height (or 0) bounding every corner strictly inside. Which corners at the span's two edges are skipped is not pinned down.
- Placement.UpdateBlockDfs and Placement.UpdateAllBlocks require every reached node's block id and parent to be in range (`Placeable`). A rank per node stands for the acyclic links the source relies on.
- Placement.UpdateBlockDfs: a block's height is stated only at its own visit (Placement.Visit), as resting on the contour as it stood then. For the whole run only x is stated (the origin for the root's block), and only for a block that is not packed again later in the run and whose parent's block is not either; Placement.PackedRoot and Placement.PackedChild give the case with no block packed twice.
- Placement.Subtrees: positions as for Placement.UpdateBlockDfs: x only, heights at each visit.
- Placement.UpdateAllBlocks: positions as for Placement.UpdateBlockDfs: x only, heights at each visit.
- Placement.UpdateBlockDfs: the bounding box being reached by a packed block (`Peaked`) and every block standing as its node wants (`Oriented`) are stated only when no two packed nodes share a block id.
- Placement.CrossMissed shows that `block_overlap` misses crossing blocks. The model keeps the test as written; its only use is a diagnostic print.
- The third tool of the repository (`r08943094_pa3`) and the programs' `main` files are not modelled.

## Findings

| source | as written | input that shows it | evidently intended | confidence | as-written member | corrected member |
|---|---|---|---|---|---|---|
| r08943094_pa2/src/BSTree.cpp:71-97 | `replace` frees the tree's nodes but never clears `root`. When the other tree is empty, `copy` returns at once and `root` still points at a freed node | a tree with one node, replaced by a new empty tree | the root is cleared with the nodes, so an empty source gives an empty tree | low; not executed (the callers may never pass an empty tree) | BStar.ReplaceEmptyDangles | BStar.ReplaceCopies |
| r08943094_pa1/src/partitioner.cpp:189-196 | `compute_cell_gain` adds one term per entry of a cell's net list and reads the net's count for the cell's side, which counts repeated entries. The parser keeps a cell named twice in a record unless the two names are adjacent (lines 49-56) | the record `NET n a b a ;`, with a in partition 0 and b in partition 1: a's gain is 0, yet moving a uncuts the net | each net lists a cell once, so a cell's gain is the cut reduction of moving it | medium; not executed | Gain.RepeatedCellMisgains | Gain.GainIsCutReduction |
