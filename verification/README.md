# Lustre file system for macOS: the stateful core, verified

A Dafny model of the four pieces of the kernel extension whose correctness spans more than one
statement, with proofs of what they promise.

| what | source | modules |
|---|---|---|
| top-down red-black tree: insert, remove, find, free, iterator | `Filesystem/Utility/rb_tree.c` | `Ordering`, `Shape`, `Rotations`, `Balance`, `Surgery`, `InsertDescent`, `InsertWalk`, `RemoveDescent`, `RemoveSurgery`, `RbTrees`, `Heights`, `Search`, `Trails`, `TreeIterators`, `TreeRuns`, `HaltingRun`, `AsWritten` |
| root vnode attach and detach, any number of threads | `Filesystem/vfsop.c`, `Filesystem/vnop.c` | `RootVnode`, `RootInvariant`, `RootSafety`, `RootCalls` |
| reference-holding list | `Filesystem/Utility/list.c` | `ListSpec`, `Lists`, `RepairedLists` |
| resumable directory listing | `Filesystem/vnop.c`, `Filesystem/Utility/extensions.c` | `ReadDirs` |
| shared: absent values, reference counts, 64-bit counters, the order of reads and frees | | `Options`, `References`, `Words`, `Accesses` |

## How the pieces are put together

**Tree.** Nodes are objects with `red`, `data` and `link`, updated in place by the same statements as
in the C code. A ghost `Tree` says what lies in memory below a link and a ghost `Ctx` (a zipper) what
lies above it, so that the loop invariants of insert and remove speak of one link at a time:
`Zip(ctx, f, q)` says that memory holds `ctx` around `f`, and the pure predicates `ZipRB`, `Aligned`,
`Pushed` and `Searching` say how far the tree is in balance, which helper pointers are true ancestors,
and where the key can be. `shape` is the tree that a `RbTree` object holds and `Contents()` its items
in order. A sorted sequence is the specification of both operations, and is related to finite sets by
lemmas of its own; `Grown` gives, besides, the very tree that an insertion leaves, colours included.
`TreeRuns.Drive` carries any sequence of calls through a tree in memory. Comparators are any total preorders on non-null addresses;
`EveryPreorderIsRanked` turns one into an integer rank, which is what the proofs use.

**Root vnode.** `RootVnode` is a transition system: a program counter for each call, the fields under
`root_lock`, and each vnode with its vid, I/O count and soft references. Its environment rules are in
`Enabled`: `vnode_create` succeeds at an address without a living vnode; VFS reclaims an incarnation
once, and only while its I/O count is zero; `vnode_getwithvid` succeeds exactly on the same unreclaimed
incarnation; only the holder of a reference hands out another. `RootSafety` quantifies over every run.
`RootCalls` has the code itself, as methods that assign the fields; other calls may take any number of
steps before each step of this one, also while it has the lock, when `StepPins` says what they cannot
change. `past` lists what was done: the call's own steps and the turns it left to others. `Runs` says
that replaying it gives the state and that its turns are those taken from the schedule, and
`Continues(t)` that only t's own steps of the getter or of detach and turns left by t were added. So
each method takes its steps of that transition system and no others, and its results carry over.
`LUSTRE_BUG_ON`s of the getter and of detach are assertions in those methods.

**List, directory.** `After` and `Served` are the specifications over runs and sessions; the methods on
linked entries and on the user's buffer are proved equal to them, and say besides what each field is
afterwards.

Reference counts are a ledger of increments and decrements, kept where the C code calls
`ref_count_inc` and `ref_count_dec`. Allocation can fail: `canAlloc` is the caller's oracle.

## Where the code misses its intent

The model follows the code, except that insert and find carry the repairs named first; for each
deviation a member says exactly when the text as written goes right.

- `rb_tree.c:260` calls `single` in the zig-zag case. Repaired to `double`. As written the red-red edge
  is removed if and only if the case is not zig-zag (`AsWritten.SingleRotationIsExact`); inserting an
  item between two others is such a case (`AsWritten.ThirdInsertZigZags`).
- `rb_tree.c:286` tests the wrong way round. Repaired. As written the first node stays red, and
  inserting an item then halts if and only if it differs from the one stored
  (`AsWritten.FirstTwoInserts`); and line 287 follows a null root if and only if the tree is empty and
  the allocation fails (`AsWritten.FollowsNullRoot`).
- `rb_tree.c:177` stores the comparison unsigned. Repaired. As written a match is found if and only if
  the leftmost path leads to one (`Search.UnsignedFindIsExact`, `Search.UnsignedFindMisses`).
- `rb_tree.c:288` counts duplicates and `rb_tree.c:385` uncounts items that were not found. Kept; the
  count equals the cardinality if and only if the two balance modulo 2^64
  (`TreeRuns.CountLaw`, `TreeRuns.CountIsCardinality`).
- `rb_tree.c:242-243`: when an allocation fails after the root's colours were flipped, the root is left
  red, and a later insertion can rotate at a null grandparent and halt, at line 63 or, in the zig-zag
  case, at line 76. Kept; `Insert` halts if and only if `RotatesAtNull` holds, and says which tree a
  failed insertion leaves. A run halts only if at least two insertions failed since the last call that
  was not a failed insertion (`TreeRuns.Drive`), and two are enough (`HaltingRun.TwoFailuresHalt`).
- `rb_tree.c:166-168` and `list.c:231-233` read an entry after freeing it. Kept; a log of reads and frees
  shows that this happens if and only if there was anything to free. `RepairedLists` reads first.
- `list.c:114-121`, `146-154`, `174-176`, `204-206`: `prev` is never set for a new entry and is repaired
  in the wrong neighbour. `Lists` keeps this: everything but `DequeueTail` refines a sequence, and
  `DequeueTail` does if and only if the list is empty or is one entry whose `prev` is null.
  `RepairedLists` sets `prev`, and there `DequeueTail` refines it too.
- `list.c:92`: `lustre_list_free` drains the list without giving the references back (`Lists.List.Free`).

## Model

| member | source | states |
|---|---|---|
| `Ordering.EveryPreorderIsRanked` | Filesystem/Utility/rb_tree.h:36 | every comparator that is a total preorder sorts by some integer rank |
| `Ordering.InsertedIsSetInsertion` | Filesystem/Utility/rb_tree.c:264-267 | the specification of insertion keeps a strictly ascending sequence so, adds exactly the new item, and changes nothing if an equal item is stored |
| `Ordering.RemovedIsSetRemoval` | Filesystem/Utility/rb_tree.c:367-375 | the specification of removal keeps it ascending, takes out exactly the one equal item, and changes nothing if there is none |
| `Ordering.InsertedAccounts` | Filesystem/Utility/rb_tree.c:31-52 | insertion keeps, for every item, increments minus decrements equal to its occurrences |
| `Ordering.RemovedAccounts` | Filesystem/Utility/rb_tree.c:367-372 | removal keeps it too, although it moves another item's data into the found node |
| `References.AllReleased` | Filesystem/Utility/rb_tree.c:164-169 | releasing every stored item once leaves no reference behind |
| `Rotations.Single` | Filesystem/Utility/rb_tree.c:59-72 | in memory, the subtree becomes its rotation with the old root red and the new root black, and no other node is written |
| `Rotations.Double` | Filesystem/Utility/rb_tree.c:74-81 | the same for the double rotation |
| `Rotations.RotatedItems` | Filesystem/Utility/rb_tree.c:59-72 | a rotation keeps the items in order |
| `Rotations.RotatedTwiceKeeps` | Filesystem/Utility/rb_tree.c:74-81 | a double rotation keeps the items in order and the nodes, each once |
| `Balance.FlippedRB` | Filesystem/Utility/rb_tree.c:246-251 | the colour flip keeps black heights and makes no red-red edge below the flipped node |
| `Balance.OuterRB` | Filesystem/Utility/rb_tree.c:253-258 | one red-red edge on the outside is repaired by one rotation at the grandparent |
| `Balance.InnerRB` | Filesystem/Utility/rb_tree.c:259-261 | one red-red edge on the inside is repaired by the double rotation |
| `Surgery.RotateOuter` | Filesystem/Utility/rb_tree.c:255-258 | the assignments through t, g and dir2 are that rotation, hung at the right link of t |
| `Surgery.RotateInner` | Filesystem/Utility/rb_tree.c:255-261 | the same for the double rotation, with line 260 repaired |
| `InsertDescent.ViolationIsAligned` | Filesystem/Utility/rb_tree.c:253-262 | helpers may be stale, but when a red-red edge is found g is null only as RotatesAtNull says, and otherwise t, g, p, q is a true ancestor chain with just this one edge |
| `InsertDescent.TurnAligned` | Filesystem/Utility/rb_tree.c:236-280 | after flips and rotations one turn of the loop leaves the helpers as good as the next turn needs, and the termination measure drops although a double rotation makes the subtree at q grow |
| `InsertDescent.Arrives` | Filesystem/Utility/rb_tree.c:264-267 | where the loop stops, the whole tree is balanced and holds the items with the new one, and a node was added only if no equal item was stored |
| `InsertDescent.Fails` | Filesystem/Utility/rb_tree.c:238-244 | where allocation fails, no equal item was stored and the tree is balanced with the same items |
| `InsertDescent.Unplug` | Filesystem/Utility/rb_tree.c:282-283 | what hangs under the false root is then a balanced tree, whose root is red exactly if it was or was flipped |
| `InsertWalk.AnyHead` | Filesystem/Utility/rb_tree.c:225-283 | the tree that insertion leaves depends on the tree before, the item and the node only, not on where the false root is |
| `InsertWalk.Stops` | Filesystem/Utility/rb_tree.c:236-280 | where the loop has stopped is where the step function, applied often enough, stays |
| `InsertWalk.ShallowNext` | Filesystem/Utility/rb_tree.c:246-280 | below a root that it reddened itself, the search keeps the root out of danger: no child of it gets two red children, through flips and rotations |
| `InsertWalk.FailsCalmly` | Filesystem/Utility/rb_tree.c:238-244 | a failed insertion into a tree with a black root leaves a tree into which no insertion halts |
| `RemoveDescent.SiblingIsBlack` | Filesystem/Utility/rb_tree.c:339-342 | when a red node must be pushed down from above, the sibling exists and is black, and the parent is red or q is the root |
| `RemoveDescent.PushedDownRB` | Filesystem/Utility/rb_tree.c:334-364 | each of the four ways to push keeps the tree balanced and leaves q or the next node red |
| `RemoveDescent.PushedDownSides` | Filesystem/Utility/rb_tree.c:334-364 | and keeps, in order, the items on either side of the link the search goes on to |
| `RemoveDescent.Sinks` | Filesystem/Utility/rb_tree.c:320-365 | one turn keeps the whole loop invariant: balance, contents, the side on which the key lies, and f as found node or its in-order successor link |
| `RemoveDescent.BottomIsLeaf` | Filesystem/Utility/rb_tree.c:367-372 | the node to be unlinked is a leaf, and red unless it is the only node |
| `RemoveDescent.UnlinkedItems` | Filesystem/Utility/rb_tree.c:367-372 | moving q's data to f and unlinking q removes exactly the found item: q is f or its in-order predecessor |
| `RemoveDescent.UnlinkedRB` | Filesystem/Utility/rb_tree.c:367-372 | and leaves a balanced tree with the same nodes but q |
| `RemoveDescent.Ends` | Filesystem/Utility/rb_tree.c:367-372 | at the end of the search with f set, both of the above hold of the tree in memory, and p is the parent of q |
| `RemoveDescent.EndsWithout` | Filesystem/Utility/rb_tree.c:373-375 | with f null no equal item is stored and the items are unchanged |
| `RemoveSurgery.PushDown` | Filesystem/Utility/rb_tree.c:334-364 | the pointer statements are the pushing transformation, every dereference of g and s is safe, and the returned p is the parent of q |
| `RbTrees.RbTree.constructor` | Filesystem/Utility/rb_tree.c:135-149 | a new tree is valid and empty |
| `RbTrees.RbTree.NewNode` | Filesystem/Utility/rb_tree.c:31-52 | a fresh red leaf and one increment, or nothing |
| `RbTrees.RbTree.Turn` | Filesystem/Utility/rb_tree.c:238-262 | one turn in memory: link or flip, then repair, at the tree positions the pure lemmas speak of |
| `RbTrees.RbTree.Descend` | Filesystem/Utility/rb_tree.c:236-280 | the loop ends, halts exactly if RotatesAtNull, fails exactly if an allocation was needed and refused, and otherwise leaves a balanced tree with the inserted items |
| `RbTrees.RbTree.Insert` | Filesystem/Utility/rb_tree.c:202-292 | any valid tree becomes a valid one whose items are the old ones plus the new one, or the same on a duplicate or a failed allocation; halts, fails and counts exactly as said, and leaves exactly the tree that Grown works out |
| `RbTrees.RbTree.Sink` | Filesystem/Utility/rb_tree.c:319-365 | the push-down loop ends at a null link with its invariant, helpers included |
| `RbTrees.RbTree.Unlink` | Filesystem/Utility/rb_tree.c:370-371 | the two assignments unlink q at the right side of p and move its data |
| `RbTrees.RbTree.Remove` | Filesystem/Utility/rb_tree.c:294-388 | any valid tree becomes a valid one with a black root whose items are the old ones minus the equal one; KERN_INVALID_ARGUMENT exactly if there was none |
| `RbTrees.RbTree.Find` | Filesystem/Utility/rb_tree.c:174-200 | returns a stored matching item, and finds one whenever there is one if the find order follows the tree's; with line 177 repaired |
| `RbTrees.RbTree.Count` | Filesystem/Utility/rb_tree.c:390-395 | the count is, modulo 2^64, the number of stored items plus the duplicate insertions less the fruitless removals so far |
| `Search.LookupFinds` | Filesystem/Utility/rb_tree.c:185-197 | the descent by find_comparator is sound, and complete on a sorted tree when the find order follows the insert order |
| `Search.UnsignedFindIsExact` | Filesystem/Utility/rb_tree.c:177-192 | as written, it finds a match if and only if one lies on the leftmost path |
| `Search.UnsignedFindMisses` | Filesystem/Utility/rb_tree.c:177-192 | a tree of two nodes in which it misses a stored item |
| `Heights.HeightAndSize` | Filesystem/Utility/rb_tree.h:29 | a subtree of black height h has height at most 2h+1 and at least 2^h - 1 items |
| `Heights.HeightBound` | Filesystem/Utility/rb_tree.h:29 | a valid tree of n items has height at most 2 log2(n+1) |
| `Heights.SmallTreesFit` | Filesystem/Utility/rb_tree.h:29 | up to 2^33 - 2 items the ancestors of any node fit in the 64 slots of path |
| `Trails.Stretch` | Filesystem/Utility/rb_tree.c:83-131 | the items below a node are one stretch of the items of the tree, at the place that its path determines |
| `Trails.IndexFinds` | Filesystem/Utility/rb_tree.c:83-131 | the path to a node determines its place in the order |
| `Trails.DepthBound` | Filesystem/Utility/rb_tree.c:83-131 | a path is no longer than the height above its end |
| `TreeIterators.TreeIterator.Start` | Filesystem/Utility/rb_tree.c:83-99 | goes to the outermost node with path its ancestors, never past slot 64 |
| `TreeIterators.TreeIterator.Move` | Filesystem/Utility/rb_tree.c:101-131 | goes to the neighbouring node in order, or to none at the end, and keeps path the ancestors |
| `TreeIterators.TreeIterator.First` | Filesystem/Utility/rb_tree.c:423-436 | returns the least item, or none if there is none |
| `TreeIterators.TreeIterator.Last` | Filesystem/Utility/rb_tree.c:438-451 | returns the greatest item, or none if there is none |
| `TreeIterators.TreeIterator.Next` | Filesystem/Utility/rb_tree.c:453-466 | returns the next item in order, or none after the last |
| `TreeIterators.TreeIterator.Prev` | Filesystem/Utility/rb_tree.c:468-481 | returns the previous item, or none before the first |
| `TreeIterators.Enumerate` | Filesystem/Utility/rb_tree.c:423-466 | first and then next until none lists the stored items, strictly ascending |
| `TreeIterators.EnumerateBack` | Filesystem/Utility/rb_tree.c:438-481 | last and then prev until none lists them in reverse |
| `TreeIterators.NextThenPrev` | Filesystem/Utility/rb_tree.c:453-481 | next and then prev lead back to the same node |
| `TreeIterators.NodeSeqOnce` | Filesystem/Utility/rb_tree.c:164-169 | the nodes in order are all the nodes of the tree, each once |
| `TreeIterators.Free` | Filesystem/Utility/rb_tree.c:151-172 | releases each stored item once and frees each node once, last to first; as written the iterator reads the links of a node after it was freed exactly if the tree is not empty; does nothing if the iterator cannot be allocated |
| `TreeRuns.Apply` | Filesystem/Utility/rb_tree.c:202-388 | on a tree in memory, allocation failures included, each call changes what clients observe as the specification says, or halts exactly as RotatesAtNull says, which takes a red root; only a failed insertion leaves one |
| `TreeRuns.Drive` | Filesystem/Utility/rb_tree.c:202-388 | any run of calls, allocation failures included, on a new tree in memory: up to a call that halts the tree is valid, shows clients what Run says, stores exactly what Stored says, and its size is off by duplicates less misses; a call halts only after two failed insertions since the last call of another kind, on a tree that RotatesAtNull describes |
| `TreeRuns.RunIsSound` | Filesystem/Utility/rb_tree.c:202-388 | of the views that Drive shows of a tree in memory, over every run: the items are strictly ascending, and increments minus decrements of each item equal its occurrences |
| `TreeRuns.RunStores` | Filesystem/Utility/rb_tree.c:174-388 | of the same views: an item equal to y is stored if and only if an insertion of one has succeeded since the last removal of one, and it is the first of those |
| `TreeRuns.CountLaw` | Filesystem/Utility/rb_tree.c:286-289 | of the same views: count is the number of items plus duplicate insertions minus fruitless removals, modulo 2^64 |
| `TreeRuns.CountIsCardinality` | Filesystem/Utility/rb_tree.c:385-395 | of the same views: count is the cardinality if and only if duplicates and misses balance modulo 2^64 |
| `HaltingRun.TwoFailuresHalt` | Filesystem/Utility/rb_tree.c:238-262 | on a new tree, after twelve insertions and two that fail, an insertion with memory halts |
| `HaltingRun.ChainEnds` | Filesystem/Utility/rb_tree.c:219-288 | the tree in memory after those twelve insertions, node by node and colour by colour |
| `AsWritten.SingleRotationIsExact` | Filesystem/Utility/rb_tree.c:253-262 | with line 260 as written the subtree is balanced again if and only if q is the outer child |
| `AsWritten.ThirdInsertZigZags` | Filesystem/Utility/rb_tree.c:253-262 | inserting b after a and c, with b between them, is the zig-zag case, and line 260 as written leaves no red-black tree there |
| `AsWritten.FirstTwoInserts` | Filesystem/Utility/rb_tree.c:219-289 | in memory, of the first two insertions into a new tree as written, the second halts if and only if its item differs and a node can be allocated |
| `AsWritten.FollowsNullRoot` | Filesystem/Utility/rb_tree.c:219-287 | as written, line 287 follows a null root if and only if the tree is empty and the allocation fails |
| `RootInvariant.StepKeeps` | Filesystem/vfsop.c:76-200 | every step of every call keeps the invariant, and none of the checks fails in it |
| `RootSafety.ReachedInv` | Filesystem/vfsop.c:76-200 | the invariant holds in every reachable state |
| `RootSafety.NoCheckFires` | Filesystem/vnop.c:48-81 | over every interleaving no LUSTRE_BUG_ON of the getter or of detach fires, and vnode_vid is never asked of a freed vnode |
| `RootSafety.ReturnedRoot` | Filesystem/vfsop.c:126-207 | a call that returned 0 holds exactly one counted I/O reference, on the living incarnation that is the installed root |
| `RootSafety.OneCreator` | Filesystem/vfsop.c:93-155 | root_attaching is set if and only if a call is creating the root; there is never more than one, and no root until it installs its own |
| `RootSafety.OneRoot` | Filesystem/vfsop.c:93-155 | two incarnations that are created and not yet detached are the same |
| `RootSafety.NoLostWakeup` | Filesystem/vfsop.c:83-92 | a sleeper implies root_waiting and root_attaching, and completing the attach leaves no sleeper |
| `RootSafety.SoftReferences` | Filesystem/vnop.c:73-77 | while the lock is free the root has exactly one soft reference and every other vnode none |
| `RootSafety.UnmountIsQuiet` | Filesystem/vfsop.c:378-387 | once all calls have left and all vnodes are reclaimed, the three assertions of unmount hold |
| `RootSafety.NeverStuck` | Filesystem/vfsop.c:76-200 | while any call is in progress, some call in progress can take a step of its own |
| `RootCalls.SlotIsProtected` | Filesystem/vfsop.c:74-92 | while a call has the lock, no step of another call changes the locked fields |
| `RootCalls.StepPins` | Filesystem/vfsop.c:164-200 | nor the incarnation of the root; nor can others change the incarnation on which a call holds a reference |
| `RootCalls.OthersReach` | Filesystem/vfsop.c:74-200 | any steps of other calls, put between two steps of a call, continue the run, and leave this call where it is, or wake it |
| `RootCalls.LeavesWithRoot` | Filesystem/vfsop.c:195-200 | a call about to leave the getter holds a reference on the living root, which has its one soft reference; with root_waiting clear no one sleeps |
| `RootCalls.QuietReplay` | Filesystem/vfsop.c:55-207 | any sequence of a call's own steps leaves every other call where it is, or wakes it |
| `RootCalls.OneNewReference` | Filesystem/vfsop.c:126-207 | between a state before the call and one where it has returned, with every other call's references as they were, the root gains exactly this call as holder and one I/O reference |
| `RootCalls.Undisturbed` | Filesystem/vfsop.c:76-93 | in any reachable state with no other call in progress the lock is free, nothing is being attached, and the root, if there is one, lives |
| `RootCalls.Volume.Interleave` | Filesystem/vfsop.c:76-200 | steps of others between two steps with the lock change neither the locked fields nor the incarnation of the root; if there are none, nothing changes |
| `RootCalls.Volume.Lock` | Filesystem/vfsop.c:74 | waits through any steps of others and then holds the lock; gives up only when the turns are over and the lock is held; a lock that is free after the first turn is taken then |
| `RootCalls.Volume.AwaitCreator` | Filesystem/vfsop.c:83-92 | the call first sets root_waiting and falls asleep without the lock; while it sleeps both flags are set; woken, it has the lock again |
| `RootCalls.Volume.SetRoot` | Filesystem/vfsop.c:133-139 | with no root before, the new vnode is the root |
| `RootCalls.Volume.FinishAttach` | Filesystem/vfsop.c:143-154 | the attach was going on, and both flags are clear afterwards |
| `RootCalls.Volume.InstallRoot` | Filesystem/vfsop.c:133-154 | the new vnode is the root, living, referenced by the call, with one soft reference; both flags are clear and no one sleeps |
| `RootCalls.Volume.CreateRoot` | Filesystem/vfsop.c:93-155 | created with the lock dropped, the vnode is the root with the same references and flags; undisturbed, it is created and it is the one that vnode_create made |
| `RootCalls.Volume.ReadCandidate` | Filesystem/vfsop.c:164-168 | candidate and vid are those of the root under the lock, even with steps of others between reading them and releasing it |
| `RootCalls.Volume.CheckCandidate` | Filesystem/vfsop.c:168-192 | the call has a reference on exactly the incarnation asked for, or EAGAIN; undisturbed, it has it if that incarnation lives |
| `RootCalls.Volume.TryRoot` | Filesystem/vfsop.c:156-193 | on success the result is the very incarnation read under the lock, still the root, with an I/O reference of the call; otherwise EAGAIN and no reference; undisturbed, a living root succeeds |
| `RootCalls.Volume.Attempt` | Filesystem/vfsop.c:77-197 | once through the loop: a usable root, or EAGAIN with the lock, or the turns are over; undisturbed, the living root there was or the one just created |
| `RootCalls.Volume.Return` | Filesystem/vfsop.c:197-206 | a call that returns 0 has an I/O reference of its own on the living root; every step on the way is its own or in a turn taken from the schedule |
| `RootCalls.Volume.GetRoot` | Filesystem/vfsop.c:55-207 | among any steps of others: if it returns, then the living root with an I/O reference of its own; the run it leaves is, in order, its own steps of the getter and the turns it took, and nothing else; if nothing happens in those turns, every other call keeps the references it has and the root's holders are the old ones plus this call; with no other call in progress it returns, and with the old root if there was one |
| `RootCalls.Volume.DropRoot` | Filesystem/vnop.c:62-77 | the three checks hold; afterwards there is no root and the vnode has no soft reference |
| `RootCalls.Volume.DetachRoot` | Filesystem/vnop.c:48-81 | the same from the lock to the unlock, on behalf of a reclaim; its own steps and the turns it took account for the whole run; if nothing happens in those turns, no call loses or gains a reference; with no other call in progress it detaches |
| `ListSpec.AfterConserves` | Filesystem/Utility/list.c:97-239 | each operation keeps increments equal to decrements plus items dequeued plus entries linked |
| `ListSpec.RunConserves` | Filesystem/Utility/list.c:97-239 | so does every run |
| `ListSpec.FirstInFirstOut` | Filesystem/Utility/list.c:129-189 | enqueued at the tail and dequeued at the head, items come out in the order they went in |
| `ListSpec.LastInFirstOut` | Filesystem/Utility/list.c:129-219 | enqueued at the tail and dequeued at the tail, the last n items come out in reverse order and the others stay linked |
| `ListSpec.MirroredRun` | Filesystem/Utility/list.c:97-239 | a run with head and tail exchanged, on the list read backwards, hands out the same items and leaves the same list read backwards |
| `ListSpec.EmptiedRun` | Filesystem/Utility/list.c:221-239 | after a run that ends by emptying the list nothing is linked, and increments equal decrements plus items handed out before |
| `Lists.NewEntry` | Filesystem/Utility/list.c:31-49 | a fresh unlinked entry and one increment, or null and none |
| `Lists.List.EnqueueHead` | Filesystem/Utility/list.c:97-127 | as written, puts the item in front of the sequence that next visits, with one increment and one more in size, or changes nothing and fails |
| `Lists.List.EnqueueTail` | Filesystem/Utility/list.c:129-159 | as written, puts it behind, with one increment and one more in size, or changes nothing and fails |
| `Lists.List.DequeueHead` | Filesystem/Utility/list.c:161-189 | as written, takes the first item out of the sequence and of the size and hands its reference to the caller, with no increment or decrement |
| `Lists.List.DequeueTail` | Filesystem/Utility/list.c:191-219 | as written, leaves the rest of the list if and only if it was empty or one entry with a null prev |
| `Lists.List.Empty` | Filesystem/Utility/list.c:221-239 | head and tail are null, size is 0, nothing was handed out, and each item that was linked is decremented once; as written it reads an entry after freeing it exactly if there was one |
| `Lists.List.Free` | Filesystem/Utility/list.c:85-95 | drains the list with no decrement at all |
| `Lists.List.Count` | Filesystem/Utility/list.c:241-253 | returns the number of linked entries |
| `Lists.TailIsLost` | Filesystem/Utility/list.c:191-219 | two items enqueued and one dequeued at the tail leave size 1 and no tail |
| `RepairedLists.DoublyLinkedList.EnqueueHead` | Filesystem/Utility/list.c:97-127 | with prev set, puts the item in front with one increment, prev and next agreeing everywhere, or changes nothing and fails |
| `RepairedLists.DoublyLinkedList.EnqueueTail` | Filesystem/Utility/list.c:129-159 | puts it behind with one increment, or changes nothing and fails |
| `RepairedLists.DoublyLinkedList.DequeueHead` | Filesystem/Utility/list.c:161-189 | takes the first entry out and hands its item to the caller; the others stay linked, one fewer in size |
| `RepairedLists.DoublyLinkedList.DequeueTail` | Filesystem/Utility/list.c:191-219 | takes the last entry out, always, and hands its item to the caller; the others stay linked, one fewer in size |
| `RepairedLists.DoublyLinkedList.Empty` | Filesystem/Utility/list.c:221-239 | with the reads first, every entry is freed, nothing is read after that, each item is decremented once, and head, tail and size are clear |
| `ReadDirs.Uio.Move` | Filesystem/Utility/extensions.c:25-35 | an entry that finds no room changes nothing and fails with ENOBUFS; otherwise resid and offset move by the bytes that were copied, and the entry counts as delivered only if it was copied whole |
| `ReadDirs.ReadDir` | Filesystem/vnop.c:276-389 | delivers, from the saved offset, the leading entries that fit and are copied, counts them, and saves 7 times the new index; resid drops by their size and by what the one failing uiomove moved; running out of room is no error, a failing uiomove is its error, and ENOBUFS never; rejects the two flags; halts exactly on an offset that is no multiple of 7 |
| `ReadDirs.ServedFacts` | Filesystem/vnop.c:337-359 | a call moves on by exactly the leading entries that fit and are copied, stops before the end if and only if room or uiomove fails it, and its error says which |
| `ReadDirs.OnlyFaultsAreErrors` | Filesystem/vnop.c:361-368 | an accepted call reports the error of the uiomove that failed, except ENOBUFS, and 0 if none failed; its count is the number of entries it moved on by |
| `ReadDirs.SessionIsPrefix` | Filesystem/vnop.c:276-389 | over any session the delivered entries are those from the start up to the saved index, each once and in order |
| `ReadDirs.EndIsReported` | Filesystem/vnop.c:374-376 | from offset 0, each accepted call reports the end if and only if both entries have been delivered by then, and counts what it delivered |

## Left out

- RbTrees.RbTree.Insert: lines 260 and 286 are modelled as repaired; `AsWritten` treats the text as it is. The data of the false root head, which bzero makes null, is an arbitrary item here; it is never read.
- RbTrees.RbTree.Find: line 177 is modelled as repaired; `Search` treats the text as it is.
- TreeRuns.Drive: which tree a removal leaves is not a function here, so for a run with removals the halting call is described by the tree it finds, not by the calls alone.
- TreeIterators.Free: freed memory keeps its contents in the model; that it is read is recorded, not what could be read there. The iterator that the source leaks at line 158 is not tracked.
- TreeIterators.TreeIterator.Next: changing the tree while an iterator stands in it is not modelled.
- Lists.List.DequeueTail: an entry that was freed keeps its fields in the model; so a dangling prev is followed, not faulted on.
- Lists.List.EnqueueHead: a list's operations are one at a time, as its mutex makes them; the size field is unbounded, since memory ends before 2^64 entries.
- RootCalls.Volume.GetRoot: among other calls in progress, when it returns depends on the schedule; `NeverStuck` says that the protocol cannot deadlock, and fairness is not modelled.
- RootCalls.Volume.CreateRoot: vnode_create always succeeds, since line 123 halts otherwise.
- RootSafety.ReturnedRoot: a vid is unbounded, so a 32-bit vid that comes round to an old value is not modelled.
- ReadDirs.ReadDir: the bytes of struct dirent, its uninitialised tail, and the check that the vnode is a directory are not modelled.
- Comparators that are not total preorders, or whose answers change between calls.
- The setting up of a mount, which checks that the root fields start out clear; the protocol starts from that state.
- Attribute tables, statfs, volume and mount getters, lookup: constants and copying.
- Volume reference counts and the start and stop of the kernel extension: straight-line calls into the kernel.
- `apple_private.c`: it walks kernel memory whose layout is not part of the repository.
- The user-level tools, installer and tests.
- Logging, times and permissions.
