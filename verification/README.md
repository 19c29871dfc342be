# A verified model of the containers and the interpreter core

The repository is a C library of containers and `tlang`, a small scripting language built on it. This project
models the parts in which most of the state lives and proves what they promise, for all inputs and over whole
runs. `dafny verify dfyconfig.toml` checks everything.

* **Red-black tree** (`RbShape` to `RbRuns`). Nodes are heap objects; a ghost tree and a context around a place
  in it (a zipper) say what the nodes show. Parent and colour, packed into one word in the code, are two fields.
  The root's parent is left open by the model, since deletion leaves it stale: no operation may depend on it.
  Fixups are proved against pure tree transformations, those against black counts and the list of items, and
  that against a finite map. Deletion keeps every other key in its node.
* **Slices** (`Slices`). Reference-counted storage shared by views, its growth policy and the cost of growing.
* **Collector** (`GcGraph` to `GcWitnesses`). Objects are a cyclic graph on the heap, in a doubly linked list.
  Marking is exactly reachability, sweeping keeps exactly the marked ones, and the byte counter is compared with
  what the heap really holds. A mutator that keeps what it uses on the value stack may take any number of steps, and
  read whatever it has stored; `GcState.Next` says what each of them does to what a program can read, and the heap is
  shown to follow it. `GcReach` says by paths what a program can get at, and that this is what is kept.
* **Skip list** (`SkipShape` to `SkipRuns`). One chain of nodes with towers of any heights from 1 to 32; a level's
  links are a function of the heights. The random height is an argument, so every result holds for every choice.
* **Sorts and heap** (`Sorting`, `QuickSort`, `BinaryHeap`, `HeapRuns`). In-place algorithms on arrays, proved
  against a stable sort that is shown to be the only one, and against a priority queue on multisets.
* **Operators and constant folding** (`Folding`, `OperatorLaws`, `FoldingNodes`). What the operators compute, the laws
  they obey, and the parser that evaluates them on number literals and overwrites the left operand's node. Meaning is
  a function of the source, the environment and the state; floating-point arithmetic is a parameter.
* **Interpreter** (`Syntax`, `BigStep`, `RunNodes`, `Interpreter`). The value stack, the environment chain and the
  recovery points under every kind of expression and statement. `setjmp` gives a recovery point a name, `longjmp` is an
  outcome that carries the name, and it is proved that each jump lands in the frame whose point it names. Every method
  gives, as a ghost, what was run: a tree of the pieces in which each node obeys the rule of `BigStep` for its construct,
  with the values, the completions and the current exception, but no stack and no jump. What depends on the contents
  of variables and objects is left to chance, so the results hold for every program. Loops and calls consume fuel; a
  run that does not end within it, or in which the C code would stop the process, is the outcome `Halted`.
* **What programs mean** (`Denotation`, `Adequacy`, `ProgramLaws`, `RunLaws`). A function from programs that name no
  variable to their meaning, calls, loops and exceptions included; every run ends as it says. Which programs mean the
  same, and which do not mean what they seem to.

Values are seen by the containers only through their comparators. A value is modelled by its rank under
`compare`, its rank under the second comparator of the skip list, and the rest; `Values.RankAgrees` shows that
nothing is lost by that.

Integers are unbounded, allocation succeeds, and comparators are total preorders; `Values.AscOrderRight` says when
the one for numbers is.

## What turned out not to hold

* The byte counter of the collector is exact only while arrays start at the bottom of their storage. Disposing the
  last owner subtracts the capacity seen from its start (tlang/theap.c:453-456), so the part below stays counted.
  `GcHeap.Interp.Collect` and `GcRuns.Run` say exactly by how much, and `GcWitnesses.Leak` is an instance.
* Two things a program can do show it the cell behind the elements of an array, which has never been written or
  still holds what has been popped, although the object it refers to may have been freed. A slice expression may end
  anywhere within the capacity of the storage (tlang/teval.c:1333-1337), and inserting between two elements makes the
  cell behind the last one of them (src/array.c:204-217). `GcMutator.CreateArraySlice` and `GcMutator.ArrayInsert` say
  exactly when the heap stays valid, `GcRuns.Run` that no other step breaks it, and `GcWitnesses.Stale` and
  `GcWitnesses.StaleByInsert` reach a freed object in nine steps.
* `slice_insert` moves elements up from the front whatever the index is (src/array.c:210-215): inserting 9 into
  1, 2, 3 at index 1 gives 1, 9, 2 and whatever lay behind. `Slices.InsertedRight` says exactly when it comes out
  right, and `Slices.InsertionLost` is this instance.
* The comparators for numbers return the difference of two `long` values as an `int` (src/algorithm.c:30-36), so
  0 and 2 to the 32nd compare equal. `Values.AscOrderRight` says exactly on which ranges the order is that of numbers.
* `skiplist_range` with a second comparator can start behind the first of the values that compare equal, or in
  front of the last: the search returns the first equal one it meets, which is one with the tallest tower.
  `SkipList.SkipList.Range` says exactly when the result is right, `SkipRuns.RangeCertain` when it is right whatever
  the heights, and `SkipRuns.DuplicateMissed` is an instance.
* `!=` is not always the contrary of `==`: on two arrays, two associations or two native pointers every operator tells
  whether they are the same object (tlang/teval.c:1026-1036), so `!=` holds if they are. `OperatorLaws.DifferentRight`
  says exactly on which operands it is right.
* The branches after `elif` are no alternatives: each one is run whose condition holds (tlang/texecute.c:79-97).
  `ProgramLaws.ElifsApart` says what they amount to.
* The block after `finally` is not run if the catch block throws, because the recovery point is set back before that
  block (tlang/texecute.c:293-296). `ProgramLaws.FinallyRuns` and `ProgramLaws.FinallySkipped` say exactly when it is.
* An exception can be lost in a block after `finally`, or be thrown inside it by an unrelated `try`, because that block
  is run while it is still current (tlang/texecute.c:309-316). `RunLaws.TryThrows` says exactly when a `try` throws,
  `RunLaws.ExceptionLost` and `ProgramLaws.ThrownInside` are instances. A `return` in that block is ignored.
* `continue` with the label of an outer loop does not leave the inner one (tlang/texecute.c:156-158):
  `ProgramLaws.ContinueStays`.
* Folding rejects programs that would run, such as `1 .. 2`, or a division by zero that is never reached.
  `Folding.FoldFails` says exactly which.

## Model

| member | source | states |
|---|---|---|
| Values.RankAgrees | include/algorithm.h:38 | on any finite set of values, a comparator that is a total preorder compares two of them as their ranks compare, so a model that orders cells by an integer rank loses nothing |
| Values.AscOrderRight | src/algorithm.c:30-32 | the comparator for numbers cuts the difference of two `long` values down to an `int`; on a range of numbers it orders as the numbers do if and only if the range is narrower than 2 to the 31st |
| RbTree.RbTree.LeftRotate | src/rbtree.c:175-195 | the eight field updates turn exactly the focused subtree into its left rotation, at any place of the tree, the root included, and one rotation is counted |
| RbTree.RbTree.RightRotate | src/rbtree.c:197-217 | the mirror image |
| RbTree.RbTree.FastGet | src/rbtree.c:222-250 | the slot found holds the node with the key, or is the one empty place between the smaller and the greater keys, with its parent |
| RbTree.RbTree.Get | src/rbtree.c:461-473 | the value of the key if the map has it, else the empty value and no success |
| RbTree.RbTree.FastSet | src/rbtree.c:252-312 | a node stored in the empty slot adds just its item in order, restores every red-black property, costs at most two rotations, as the rotations themselves count, and adds one to the length |
| RbTree.RbTree.RebalanceInsert | src/rbtree.c:263-311 | from one red node under a possibly red parent the loop ends in a red-black tree with the same items and nodes, after at most two rotations |
| RbTree.RbTree.PushUp | src/rbtree.c:268-273 | recolouring with a red uncle moves the only possible fault two levels up and keeps every black count |
| RbTree.RbTree.LiftR | src/rbtree.c:282-285 | a right rotation and two colours end the repair: the whole tree is red-black again |
| RbTree.RbTree.Set | src/rbtree.c:475-486 | map update, in at most two rotations; every other key stays in the node it was in, with the value it had |
| RbTree.RbTree.FastPop | src/rbtree.c:314-454 | the node's item and nothing else leaves, the rest is a red-black tree over the other nodes, the sentinel is black again, at most three rotations |
| RbTree.RbTree.Successor | src/rbtree.c:329-336 | with two children the leftmost node of the right subtree is found, the next in order |
| RbTree.RbTree.PopTwo | src/rbtree.c:329-383 | relinking the successor into the place and colour of the node, whether or not it is the node's child, keeps all other items and nodes |
| RbTree.RbTree.RebalanceDelete | src/rbtree.c:393-452 | from one place that is a black node short, the loop ends in a red-black tree with the same items, after at most three rotations |
| RbTree.RbTree.SinkL | src/rbtree.c:397-402 | a red sibling is rotated away and the place is one level deeper, with a black sibling and a red parent |
| RbTree.RbTree.DropL | src/rbtree.c:404-406 | a black sibling with black children turns red and the shortage moves one level up |
| RbTree.RbTree.TurnL | src/rbtree.c:408-413 | a red near nephew is turned outward and the shortage stays where it is |
| RbTree.RbTree.BorrowL | src/rbtree.c:415-419 | a red far nephew pays the shortage: the tree is balanced |
| RbTree.RbTree.Pop | src/rbtree.c:488-503 | map removal, in at most three rotations, with the removed value returned; nodes of all other keys are untouched; a missing key changes nothing |
| RbBalance.HeightBound | src/rbtree.c:134 | 2 to the height is at most the square of the number of items plus one |
| RbBalance.PlugRedBlack | src/rbtree.c:263-311 | a tree is red-black exactly when the part in focus and its surroundings are, counted and coloured separately |
| RbBalance.GrowItems | src/rbtree.c:175-217 | the items in order of a tree seen from a place in it are those around the place and those in it |
| RbBalance.RotateItems | src/rbtree.c:175-217 | rotating keeps the items and their order |
| RbMap.MapOfSize | src/rbtree.c:120-123 | in a sorted tree the map has as many keys as there are nodes |
| RbMap.BetweenStep | src/rbtree.c:226-246 | each comparison of the descent keeps the key between what is on either side |
| RbMap.InsertBetween | src/rbtree.c:475-486 | filling the slot between the smaller and greater keys keeps strict order and is map insertion |
| RbMap.DeleteItem | src/rbtree.c:488-503 | taking one item out keeps strict order and is map removal |
| RbTraverse.StackSuffices | src/rbtree.c:134 | the stack opened for the traversal is as deep as the tree is high |
| RbTraverse.Ldr | src/rbtree.c:505-531 | the values come in strictly ascending order, all of them unless the callback stops at the last one seen, and the stack never grows |
| RbTraverse.CloseOne | src/rbtree.c:144-146 | the right child of the node on top is returned, the node is closed, and the nodes still open are exactly those to come; fields are read through `InUse`, which demands an open node |
| RbTraverse.ClearNodes | src/rbtree.c:129-153 | no node stays open and the stack never grows; on the way every field is read through `InUse` and every node closed by `CloseNode`, which both demand a node still open |
| RbTraverse.Clear | src/rbtree.c:129-156 | the empty tree is left |
| RbRuns.Run | src/rbtree.c:461-503 | any run of set, get, pop and clear answers and ends as the same run on a finite map |
| Slices.Array.Assign | src/array.c:42-47 | one reference more |
| Slices.Array.Close | src/array.c:49-56 | one reference fewer; freed with the last |
| Slices.Slice.BySlice | src/array.c:120-130 | the new view shows the chosen part of the same storage, counted once more, and the old view is unchanged |
| Slices.Slice.Set | src/array.c:164-171 | one element of the view changes, and the same cell of the shared storage |
| Slices.Slice.Grow | src/array.c:173-191 | for any minimum the view is kept in storage of its own with the capacity of the growth policy, no smaller than before; other slices keep the old storage as it was |
| Slices.Slice.Append | src/array.c:193-202 | the view is the old view plus the value, shared or not: in place while there is room, else in new storage with the old one untouched |
| Slices.Slice.Insert | src/array.c:204-217 | for every index the exact elements and the exact storage left by a move that starts at the front whatever the index is, in place or in new storage |
| Slices.InsertedRight | src/array.c:210-215 | the insertion comes out right at either end, and elsewhere if and only if neighbours that the wrong move mixes up are equal; never when the cell behind differs from the last element |
| Slices.InsertionLost | src/array.c:210-215 | inserting between the first two of three elements loses the third |
| Slices.Slice.Pop | src/array.c:219-230 | the element leaves the view and the ones behind it close up, in the storage that other slices see |
| Slices.AmortizedGrowth | src/array.c:173-202 | n appends to a fresh empty slice of any capacity copy at most 4n elements, and at most three times the capacity reached; the capacity is never more than half as much again as is used, unless it was from the start |
| Slices.AppendAll | src/array.c:173-202 | the bound as the appends themselves meet it, with the contents they build |
| Slices.Stack.Push | src/stack.c:34-37 | on top; in the same storage while there is room |
| Slices.Stack.Pop | src/stack.c:39-49 | the last value pushed, or empty |
| Sorting.StableUnique | src/sort.c:35-46 | ascending sequences that list equal values alike are the same sequence |
| Sorting.StableSortSorts | src/sort.c:35-46 | the specification of the sorts is an ascending stable permutation |
| Sorting.InsertOne | src/sort.c:37-44 | the inner loop inserts behind everything not greater |
| Sorting.InsertSort | src/sort.c:35-46 | the stable ascending permutation |
| Sorting.MergeSorts | src/sort.c:89-91 | taking the left one of equals makes the merge of two stably sorted blocks the stable sort of both |
| Sorting.MergeBlocks | src/sort.c:88-97 | the forward pass into the buffer and the two backward fills merge neighbouring blocks in place and touch nothing else |
| Sorting.Pass | src/sort.c:81-98 | one pass turns sorted blocks into sorted blocks of twice the width, ragged last block included |
| Sorting.MergeSort | src/sort.c:77-100 | the stable ascending permutation, for every size |
| Sorting.Sort | src/sort.c:102-108 | the same result on both sides of the switch at 60, so it cannot be seen |
| QuickSort.Divide | src/sort.c:48-62 | with the pivot held out, moving the hole keeps the values of the range and leaves the pivot between the smaller and the greater ones |
| QuickSort.MoveHole | src/sort.c:54-60 | the array with the pivot in its hole is the same multiset before and after the hole moves |
| QuickSort.QuickSortRange | src/sort.c:48-69 | the range ascends, is permuted, nothing else changes, and both recursive ranges are shorter |
| QuickSort.QuickSort | src/sort.c:71-75 | an ascending permutation, for every input |
| BinaryHeap.SiftUp | src/heap.c:15-28 | a single value out of order at the end of its way up: the hole moves up and the heap order holds, values kept |
| BinaryHeap.SiftDown | src/heap.c:30-47 | the heap order below a place spreads to the place, values kept, nothing behind the heap touched |
| BinaryHeap.Build | src/heap.c:49-55 | heap order for every length, from any contents |
| BinaryHeap.RootLeast | src/heap.c:94-117 | in a heap the root is a least value |
| BinaryHeap.Heap.ByData | src/heap.c:65-74 | any values in any order become a heap of exactly those values |
| BinaryHeap.Heap.Push | src/heap.c:87-92 | the contents gain the value |
| BinaryHeap.Heap.Pop | src/heap.c:94-109 | a least value leaves the contents; the empty flag is set on an empty heap and otherwise left alone |
| BinaryHeap.Heap.Top | src/heap.c:111-117 | a least value, or the empty value |
| HeapRuns.Run | src/heap.c:87-117 | any run of pushes, pops and tops is a run of a priority queue on multisets |
| HeapRuns.Conserved | src/heap.c:87-109 | in any run what was pushed is what was popped and what is still there |
| HeapRuns.DrainSorts | src/heap.c:94-109 | popping a heap empty lists its contents in ascending order, each once |
| GcGraph.SpreadExact | tlang/theap.c:365-389 | marking from roots in an unmarked graph marks exactly what the roots reach |
| GcGraph.SpreadBoth | tlang/theap.c:427-448 | marking from one set of roots after another is marking from both |
| GcMark.Mark | tlang/theap.c:365-389 | terminates on every graph, cycles included, marks the object and spreads to what it reaches, and changes nothing but marks |
| GcMark.MarkValue | tlang/theap.c:395-405 | the objects a value refers to, and what they reach; the object of a reference, the scope of a closure and the receiver of a method value are marked |
| GcHeap.Interp.MarkObjects | tlang/theap.c:427-448 | after the marks are reset and all five kinds of root are followed, an object is marked exactly if a root reaches it; whatever a global variable, a module's variable, an environment, the stack or the current exception refers to is marked |
| GcHeap.Interp.Unlink | tlang/theap.c:488-497 | the doubly linked list without the object, in both directions, at either end or inside |
| GcHeap.Interp.Dispose | tlang/theap.c:450-481 | the counter falls by what the object owned; exactly if it was the last owner of storage it did not start at the bottom of, it falls short by the part below |
| GcHeap.Interp.Sweep | tlang/theap.c:483-501 | the list is the marked objects in their old order, still doubly linked; the counter falls short by exactly the cells below the slices of the arrays disposed of as the last owners of their storages |
| GcHeap.SurvivorsOnly | tlang/theap.c:483-501 | what stays on the list is what was on it and marked |
| GcHeap.Interp.Collect | tlang/theap.c:503-506 | exactly the reachable objects survive, in their old order; no survivor and no root refers to a freed object, and what a variable, an environment, the stack or the exception refers to is still on the list; the counter drifts by exactly the bytes named for Sweep, which is by nothing if and only if no such array starts above the bottom of its storage |
| GcAccount.WithoutObject | tlang/theap.c:450-481 | what the bytes of a heap are without one object, by whether it was the last owner of its storage |
| GcAccount.MovedBytes | tlang/tnative.c:106-117 | what they are when one array moves to storage of its own |
| GcMutator.CheckGc | tlang/theap.c:14-25 | a collection when the counter passes the threshold, and the threshold set anew; nothing reachable is freed, and the drift is exactly that of the collection |
| GcMutator.Enter | tlang/theap.c:28-41 | the new object is first in the doubly linked list and counted |
| GcMutator.Create | tlang/theap.c:58-64 | a string, association, scope chain or native pointer is allocated, counted with what it owns, and nothing reachable is freed |
| GcMutator.CreateArray | tlang/theap.c:88-97 | a new array on storage of its own whose cells are all null, first on the list and counted; nothing reachable is freed |
| GcMutator.CreateArraySlice | tlang/theap.c:99-103 | a further array on the same storage, for any end up to its capacity: one owner more and no bytes twice; the heap is valid afterwards if and only if the cells shown refer to nothing but objects that the check for a collection leaves on the list, as is known before the call; so it is whenever the slice ends within its source |
| GcMutator.ArraySet | tlang/tnative.c:88-91 | one cell changes in every array that shares it, counts and bytes stay |
| GcMutator.ArrayPop | tlang/tnative.c:141-153 | the element is returned, the array shows one less, every array on the storage sees the rest move down, no reference leads off the list, counts and bytes stay |
| GcMutator.CheckSliceState | tlang/tnative.c:106-117 | the counter changes by new storage minus storage that lost its last owner |
| GcMutator.ArrayAppend | tlang/tnative.c:119-126 | the array grows by the value, in place as every array on the storage sees it or on fresh storage, and the counter stays exactly as exact as it was |
| GcMutator.ArrayInsert | tlang/tnative.c:128-139 | every array on the storage sees what `slice_insert` moves, or the array moves to storage of its own; the counter stays exactly as exact as it was; the heap is valid afterwards if the value goes to one of the ends, and between two elements if and only if the cell behind them refers to listed objects |
| GcMutator.AddMember | tlang/theap.c:128-144 | the member map is updated, a new member counted, a collection may run and nothing reachable is freed |
| GcMutator.SetScope | tlang/teval.c:82-84 | the links of a scope chain change and the heap stays valid |
| GcLooks.PopRefs | src/array.c:219-230 | moving elements down shows no array of the storage an object that neither it nor the shortened array referred to |
| GcLooks.InsertRefs | src/array.c:204-217 | an insertion in place shows no array of the storage anything but what it and the longer array showed, the value, and for the longer array the cell behind its elements, which it then shows unless the value went to one of the ends |
| GcLooks.InsertAtEnd | src/array.c:193-217 | an insertion at the end is an append, in place or not |
| GcState.SameGraph | tlang/theap.c:427-448 | roots, graph and live objects of the collector are those that can be read off the stack, the environments and the contents of the objects |
| GcState.ValidSane | tlang/theap.c:483-506 | the heap is valid if and only if no object on the list refers to one that is not |
| GcReach.RootsPoint | tlang/theap.c:427-448 | an object is a root if and only if a variable, an environment, the stack or the current exception carries it, as a reference, as the scope of a closure or as the receiver of a method value |
| GcReach.RefsPoint | tlang/theap.c:365-423 | an object refers to another if and only if one of its elements, members or links carries it |
| GcReach.PathKept | tlang/theap.c:427-506 | whatever a program can get at by reading, in any number of steps from a variable, an environment, the stack or the exception, a collection keeps |
| GcReach.KeptPath | tlang/theap.c:427-506 | and it keeps nothing else: to every object that is kept there is such a path |
| GcReach.ValidReach | tlang/theap.c:427-506 | both hold of every valid heap |
| GcState.CheckedLost | tlang/theap.c:14-25 | the bytes that a check for a collection leaves in the counter can be read off the objects there were and the objects left |
| GcRuns.StepSlice | tlang/teval.c:1333-1342 | a slice expression is accepted exactly for 0 <= begin <= end with twice the position plus the end within the storage, and opens what it says; valid unless it ends past its source, and then if and only if the cells shown refer to listed objects |
| GcRuns.StepInsert | tlang/tnative.c:128-139 | an insertion is accepted exactly for an index from 0 to the length and does what it says; between two elements of an array with room behind them the heap stays valid if and only if the cell behind refers to listed objects |
| GcRuns.StepPopElement | tlang/tnative.c:141-153 | an element within bounds leaves the array for the stack, any other index changes nothing |
| GcRuns.StepRead | tlang/teval.c:234-278 | a program may load any variable, the exception, a scope, what an environment holds, the scope of a closure, the receiver of a method value, or any element, member or link of an object it has; what it gets is on the list, and nothing else changes |
| GcRuns.Step | tlang/theap.c:14-144 | one step of a rooted mutator, reading included, changes stack, roots, list and contents of the objects exactly as `GcState.Next` says, keeps everything reachable before it, and leaves the heap valid unless it opens a slice past its source or inserts between the elements of an array, and then if and only if the array shown refers to listed objects; the drift is exactly what the collection in it loses, as read off the states before and after, and nothing while arrays start at the bottom |
| GcRuns.Run | tlang/theap.c:14-506 | a run of any steps, the array methods `append`, `insert` and `pop` among them, does what `GcState.Next` says; the heap is valid as long as it goes on, so no reachable object is ever freed and reference counts equal the number of live arrays on each storage; it ends early only where a slice past its source or an insertion between elements has shown a freed object; the counter is off by exactly the sum of what the collections have lost, and by nothing while no slice starts above position 0 |
| GcWitnesses.StaleCell | src/array.c:219-230 | eight steps from a new interpreter after which an array of two null values has a reference behind them to a string that has been freed; the heap is still valid |
| GcWitnesses.Stale | tlang/teval.c:1333-1342 | a slice expression then shows it |
| GcWitnesses.StaleByInsert | tlang/tnative.c:398-407 | so does the array method `insert`, with no slice anywhere |
| GcWitnesses.LeakDropped | tlang/theap.c:450-481 | an array, a slice of its second element held by a native function, and the array collected: the counter is exact and the slice is all there is, no longer reachable |
| GcWitnesses.Leak | tlang/theap.c:450-481 | after one more collection nothing is left, and the counter keeps the bytes of exactly one value |
| SkipShape.NxtIs | src/skiplist.c:94-103 | the next tower that reaches a level is the only place with that property |
| SkipShape.TrackIs | src/skiplist.c:20-28 | following a level visits exactly the towers that reach it, in order, so each level is a sublist of the level below |
| SkipShape.InsertLevel | src/skiplist.c:155-168 | linking a node in behind the last tower in front of the gap makes the level right for the longer chain |
| SkipShape.RemoveLevel | src/skiplist.c:256-266 | leading the last tower in front of a stretch across it makes the level right for the shorter chain |
| SkipSpec.SetMembers | src/skiplist.c:108-172 | setting replaces what compares equal and keeps the rest |
| SkipSpec.SetOrdered | src/skiplist.c:108-172 | and keeps strict order under both comparators |
| SkipSpec.IntervalAt | src/skiplist.c:233-287 | in an ordered sequence the closed interval is one stretch |
| SkipSpec.IntervalSize | src/skiplist.c:233-287 | inside and outside of an interval make up the whole |
| SkipList.SkipList.SearchLevel | src/skiplist.c:94-103 | the walk along one level ends at the last tower that is less |
| SkipList.SkipList.FastGet | src/skiplist.c:87-106 | a value that compares equal, namely the first of the tallest, or the neighbour asked for |
| SkipList.SkipList.Get | src/skiplist.c:174-198 | found if and only if some value compares equal |
| SkipList.SkipList.FindGap | src/skiplist.c:112-142 | an equal value under both comparators, or the gap and the last tower in front of it on every level |
| SkipList.SkipList.LinkTowers | src/skiplist.c:155-170 | every level is right for the longer chain and the list is as high as its tallest tower |
| SkipList.SkipList.AddNode | src/skiplist.c:144-171 | for any height of the new tower every level, the back links, the length and the level are right again, and no other tower changes its height |
| SkipList.SkipList.Set | src/skiplist.c:108-172 | for any height of the new tower the list stands for the sorted sequence after setting, and the tower stands in the place of its value |
| SkipList.SkipList.Range | src/skiplist.c:200-218 | what is listed runs from the tallest of the values equal to the start, the first such, to the other end; it is the first `limit` of the interval, upward or downward, if and only if that value is the first of the equal ones in that direction |
| SkipLinks.UniqueStarts | src/skiplist.c:200-218 | without the second comparator that is always so |
| SkipList.SkipList.FindStretch | src/skiplist.c:241-259 | where the interval starts on every level, and above which level nothing follows |
| SkipList.SkipList.CutTowers | src/skiplist.c:261-271 | the upper levels lead across the stretch, and the level falls to the tallest tower that is left |
| SkipLinks.CutLevel | src/skiplist.c:262-267 | link by link, one level is led across the stretch |
| SkipList.SkipList.FreeRun | src/skiplist.c:272-285 | exactly the nodes of the stretch are freed and counted; every access on the way goes through `Alive`, which demands a node not yet freed |
| SkipList.SkipList.Remove | src/skiplist.c:233-287 | exactly the values of the closed interval go, with its ends in either order, and their towers with them; their number is returned; the nodes that left are the nodes freed |
| SkipList.SkipList.Clear | src/skiplist.c:57-68 | exactly the nodes behind the head are freed, their links read through `Alive`, and the empty list is left |
| SkipRuns.Run | src/skiplist.c:57-287 | for every choice of heights any run of operations ends in the sorted sequence and the heights that the same run on values gives, and every answer is the one these determine |
| SkipRuns.HeightsHidden | src/skiplist.c:75-79 | two lists with the same values in towers of any heights have the same values after the same operations with any heights, and without the second comparator the same answers |
| SkipRuns.RunBoth | src/skiplist.c:75-79 | so do two lists in memory, each with heights of its own |
| SkipRuns.AnswerRight | src/skiplist.c:87-287 | every answer is the right one but for a range, and that is right if and only if it starts at the first of the values equal to its start |
| SkipRuns.RangeCertain | src/skiplist.c:200-218 | a range is right for every choice of heights if and only if nothing is asked for or at most one value compares equal to its start |
| SkipRuns.DuplicateMissed | src/skiplist.c:200-218 | a list of two values that compare equal, the second in a taller tower, lists only the second one for the range from the first to itself |
| SkipRuns.OneAnswer | src/skiplist.c:87-218 | without the second comparator only one answer is right |
| Folding.TruncatedDivision | tlang/teval.c:310-321 | quotient cut off toward zero, remainder with the sign of the dividend |
| Folding.FoldPreserves | tlang/tcode.c:108-147 | what folding accepts means the same in every environment and state, for every floating-point arithmetic, errors and effects of subexpressions included; folding reaches into the operands of calls, indexes, assignments and the like, whatever these do before, between and after them |
| Folding.FoldFails | tlang/tcode.c:134-147 | folding raises an error if and only if some operator, however deep in calls and other constructs, has two operands of number literals, arithmetic and minus that it refuses: `..`, `&&`, `||` on any numbers, or integer division by zero |
| Folding.PlainEval | tlang/teval.c:279-449 | what such an operand gives does not depend on where it stands |
| Folding.FoldReduces | tlang/tcode.c:108-147 | nothing is left that could be folded |
| Folding.FoldOnce | tlang/tcode.c:108-147 | folding a folded expression changes nothing |
| Folding.ConcatRefused | tlang/teval.c:470-483 | joining two number literals would give a string, but folding refuses it |
| OperatorLaws.AddLaws | tlang/teval.c:279-308 | addition makes the integers a commutative group, and subtraction undoes it |
| OperatorLaws.MulLaws | tlang/teval.c:279-312 | multiplication has the unit 1, commutes and distributes over addition |
| OperatorLaws.DivLaws | tlang/teval.c:309-321 | quotient times divisor plus remainder is the dividend; the remainder is smaller than the divisor, in size, and has the sign of the dividend |
| OperatorLaws.OrderLaws | tlang/teval.c:322-345 | exactly one of `<`, `==` and `>` holds; `<` is transitive, kept by addition, with nothing between a number and its successor; the other three comparisons are the complements |
| OperatorLaws.MinusLaws | tlang/teval.c:540-550 | a number and its negative add up to 0, and negating twice gives the number back |
| OperatorLaws.FloatLaws | tlang/teval.c:363-449 | with a floating-point operand an operator gives what it gives for the integer converted, on either side |
| OperatorLaws.StringOrder | tlang/teval.c:963-984 | the comparisons of strings are those of one strict total order, with a proper prefix before the longer string and the first difference deciding |
| OperatorLaws.StringEqual | tlang/teval.c:963-984 | `==` holds of two strings if and only if they are the same |
| OperatorLaws.DifferentRight | tlang/teval.c:1006-1041 | on anything but floating-point numbers `==` tells whether the operands are the same, in either order, and `!=` is its contrary if and only if they are not two objects, at least one of them no string |
| OperatorLaws.ObjectsOnlyEqual | tlang/teval.c:1026-1036 | any operator on two such objects tells whether they are the same one |
| OperatorLaws.JoinLaws | tlang/teval.c:470-483 | joining strings is associative, has the empty string as unit and keeps the order of its operands |
| OperatorLaws.TruthTable | tlang/teval.c:505-535 | `&&` and `||` on booleans are conjunction and disjunction |
| OperatorLaws.RightHidden | tlang/teval.c:505-535 | a left operand that decides hides the right one, whatever that would do |
| OperatorLaws.LeftFirst | tlang/teval.c:1006-1012 | the left operand is evaluated first, and if it fails, nothing else is |
| OperatorLaws.DeMorgan | tlang/teval.c:505-570 | `!(x && y)` is `!x || !y` in every environment and state, effects and errors included, if the right operand gives a boolean when it gives anything; without that the code lets other values pass as the result |
| FoldingNodes.Evaluator.EvalExpression | tlang/teval.c:1480-1564 | on linked nodes the evaluator leaves one more value on the stack, the one the expression means, or the error it means with the stack below untouched |
| FoldingNodes.Evaluator.EvalOpaque | tlang/teval.c:748-904 | each operand of a call or another construct is evaluated in its turn and taken off the stack, unless the construct stops before or an operand fails; one value more is left or the error |
| FoldingNodes.Evaluator.EvalMinus | tlang/teval.c:540-550 | the operand is negated where it lies on the stack |
| FoldingNodes.Evaluator.EvalAndOr | tlang/teval.c:505-535 | the right operand is evaluated only if the left one does not decide |
| FoldingNodes.Evaluator.EvalOperator | tlang/teval.c:1006-1041 | both operands, left before right, then the operator, by the types of the values; what it computes obeys the rows of `OperatorLaws` |
| FoldingNodes.Expression.Set | tlang/tcode.c:95-106 | numbers and booleans overwrite the node, anything else leaves it |
| FoldingNodes.CreateMinus | tlang/tcode.c:108-120 | a number literal is overwritten with its negative, anything else gets a new node; the stack is as before |
| FoldingNodes.CreateBinary | tlang/tcode.c:134-147 | two number literals become one in the left node, which no other node of the expression uses; the stack is as before |
| FoldingNodes.Build | tlang/tcode.c:51-147 | the nodes the parser builds show the folded expression, or the first error folding meets |
| FoldingNodes.BuildParts | tlang/tcode.c:51-147 | so do the operands of a call or another construct, in nodes no other part uses |
| FoldingNodes.Run | tlang/tcode.c:108-147 | a program is rejected exactly when FoldFails says so, and otherwise evaluates to what its source says in every environment |
| Interpreter.Interp.Push | tlang/teval.c:17-26 | on top of what was there, with 256 cells more exactly when the stack is full |
| Interpreter.Interp.AllocEnvironment | tlang/teval.c:69-87 | a new environment in front of the chain |
| Interpreter.Interp.DisposeEnvironment | tlang/teval.c:580-590 | the environment leaves the chain and is freed, this once |
| Interpreter.Interp.EvalExpression | tlang/teval.c:1480-1564 | for every program: a normal return leaves the one value that the run gives, everything below it, the environment chain and the recovery point as they were; a jump goes to the recovery point of the entry, with the chain as it was and nothing below lost; either way the run, told without stack and jumps, obeys the rules of `BigStep` |
| Interpreter.Interp.EvalCall | tlang/teval.c:862-904 | the value on top is the one that the called function gave, in place of the function; of a function that just returns `v` it is `v` |
| Interpreter.Interp.CallInFrame | tlang/teval.c:883-898 | the call's environment and recovery point are given up however it ends, a jump that lands here goes on to the caller's recovery point with the stack set back, and the result of the call is on top otherwise |
| Interpreter.Interp.CallFunction | tlang/teval.c:657-707 | the same for calls from C: the stack is as before and the result is that of the function; of one that just returns `v` it is `v` |
| Interpreter.Interp.CallMember | tlang/teval.c:728-745 | a method call from C leaves the stack as it was and gives what the method gave |
| Interpreter.Interp.CallCrowbar | tlang/teval.c:777-810 | the arguments are evaluated in order, and if they are as many as the parameters, the body is run in the new environment; the value it returns is on top, null if it returns none |
| Interpreter.Interp.PassArguments | tlang/teval.c:780-801 | each argument leaves the stack for a variable; too many or too few are an error, after the arguments that fit have been evaluated |
| Interpreter.Interp.CallNative | tlang/teval.c:815-834 | the arguments, evaluated in order, stay on the stack for the function and give way to its result |
| Interpreter.Interp.NativeCode | tlang/teval.c:623-652 | whatever a function in C does to its arguments, by calling back and by pushing values that it takes off again, the stack below its arguments is kept |
| Interpreter.Interp.EvalAssign | tlang/teval.c:1392-1456 | the right side is evaluated before the place it goes to, and its value stays as the value of the assignment |
| Interpreter.Interp.AssignToMember | tlang/teval.c:1094-1136 | the object is evaluated and leaves the stack again |
| Interpreter.Interp.GetLvalue | tlang/teval.c:1217-1234 | what is evaluated to find where to assign, in order, leaves the stack as it was |
| Interpreter.Interp.EvalIndex | tlang/teval.c:1282-1299 | array and index, in order, give way to the element; anything but an array or a string, and any index but an integer, is an error |
| Interpreter.Interp.EvalSlice | tlang/teval.c:1348-1362 | array and bounds, in order, give way to the part, which is of the same kind |
| Interpreter.Interp.EvalElements | tlang/teval.c:157-214 | the object waits below each element, evaluated in order, and is left |
| Interpreter.Interp.RuntimeError | tlang/terror.c:169-199 | never returns: it jumps to the current recovery point, with a new exception object, with what the program's own function for that gave, or, if making it failed, with the exception of that failure |
| Interpreter.Interp.CreateException | tlang/theap.c:283-355 | what it pushes it takes off |
| Interpreter.Interp.ExecStatement | tlang/texecute.c:342-385 | a statement that returns leaves stack, chain and recovery point as they were; one that jumps loses nothing below; and its run obeys the rules of `BigStep` |
| Interpreter.Interp.ExecList | tlang/texecute.c:387-403 | the statements are run in order up to the first that does not end normally, and the list ends as that one did |
| Interpreter.Interp.ExecReturn | tlang/texecute.c:67-74 | the value of the expression is what is returned, null without one |
| Interpreter.Interp.ExecIf | tlang/texecute.c:102-124 | the condition chooses: the first block; or the branches after `elif`, and the last block if none of these has run |
| Interpreter.Interp.ExecElifs | tlang/texecute.c:79-97 | each condition is evaluated in turn and each block run whose condition holds, up to one that does not end normally |
| Interpreter.Interp.ExecWhile | tlang/texecute.c:139-161 | test and body alternate, for any number of rounds, until the test fails, the body breaks or returns, or something throws; no break or continue that was meant for the loop leaves it |
| Interpreter.Interp.ExecFor | tlang/texecute.c:166-199 | the same with an expression before the loop and one after each body, whichever of its parts are missing |
| Interpreter.Interp.ExecForeach | tlang/texecute.c:225-267 | collection and iterator wait on the stack and are taken off at the end, however the loop is left; each round asks the iterator whether it is done, then for its item, runs the body and moves on |
| Interpreter.Interp.RunLoop | tlang/texecute.c:139-161 | the rounds that the three loops have in common, and what of a break or continue is left for the loops around |
| Interpreter.Interp.ExecTry | tlang/texecute.c:288-316 | the block, then the catch block if it has thrown, then the last block unless the catch block has thrown: a return comes after a run of the last block, and if that throws, there is none; an exception that goes on goes to the recovery point of the entry, and without a catch block none is pending after a return |
| Interpreter.Interp.ExecGuarded | tlang/texecute.c:288-310 | an exception from any call depth lands here; stack, chain and recovery point are those of the entry, and no exception is current, before the catch block runs |
| Interpreter.Interp.TakeException | tlang/texecute.c:298-300 | the current exception moves to the stack and is cleared |
| Interpreter.Interp.RaiseTop | tlang/texecute.c:322-325 | the value on top becomes the current exception and the jump goes to the current recovery point |
| Interpreter.Interp.ExecThrow | tlang/texecute.c:321-326 | a jump to the current recovery point with the stack kept; the value thrown is the current exception |
| Interpreter.Interp.ShowErrorStackTrace | tlang/tinterpreter.c:93-115 | never jumps out, and leaves the chain as it was |
| Interpreter.Interp.Interpret | tlang/tinterpreter.c:202-224 | after any program, failed or not, the stack is empty, so the assertion at the end holds, and no environment is left; what was run is a run of the program's statements that obeys the rules of `BigStep` |
| Adequacy.Adequate | tlang/texecute.c:342-403 | every run that obeys the rules ends as `Denotation` says that the program means, with the same value or completion and the same current exception, for every program that means anything there, if no `catch` fails to set its variable |
| Adequacy.ArgsAgree | tlang/teval.c:777-834 | operands and arguments that are evaluated in order have the values they mean, up to the first that throws |
| Adequacy.ListAgrees | tlang/texecute.c:387-403 | a list of statements from any statement on |
| Adequacy.ArmsAgree | tlang/texecute.c:79-97 | any number of `elif` branches that are done with is that many steps of the meaning |
| Adequacy.RoundsAgree | tlang/texecute.c:139-199 | any number of rounds of a loop is that many steps of its meaning |
| Adequacy.TryAgrees | tlang/texecute.c:288-316 | a `try` statement with and without each of its blocks |
| ProgramLaws.StmtGrows | tlang/texecute.c:342-385 | what a statement means does not depend on how deep one looks, once one looks deep enough |
| ProgramLaws.CallReturns | tlang/teval.c:777-904 | a call of a function whose body returns an expression means what the expression means |
| ProgramLaws.CallFallsOff | tlang/teval.c:804-810 | a call of a function whose body does not return gives null |
| ProgramLaws.LeftFirst | tlang/teval.c:777-834 | of two operands, or of any arguments, the first is evaluated first, and if it throws, nothing else is evaluated |
| ProgramLaws.RightCounts | tlang/teval.c:505-535 | the right operand of `||` counts if the left one does not hold, that of `&&` if it does |
| ProgramLaws.DeMorgan | tlang/teval.c:505-570 | `!(x || y)` means `!x && !y`, and the other way round |
| ProgramLaws.Arithmetic | tlang/teval.c:279-312 | addition adds, subtraction undoes it, multiplication multiplies, and a negated number cancels the number |
| ProgramLaws.Comparisons | tlang/teval.c:322-345 | `<`, `>` and `==` compare |
| ProgramLaws.Complements | tlang/teval.c:322-345 | `>=`, `<=` and `!=` are the contraries of `<`, `>` and `==` |
| ProgramLaws.Appended | tlang/texecute.c:387-403 | a list after another is begun exactly if the other has ended normally, and is then all that counts |
| ProgramLaws.IfChooses | tlang/texecute.c:102-124 | the condition chooses the block |
| ProgramLaws.IfNot | tlang/texecute.c:102-124 | with the condition negated the blocks change places |
| ProgramLaws.ElifsApart | tlang/texecute.c:79-97 | branches after `elif`, without `else`, mean one `if` after another, each run if its condition holds |
| ProgramLaws.WhileUnrolls | tlang/texecute.c:139-161 | a `while` loop means its condition, its body and the loop again, for every body that no break or continue leaves |
| ProgramLaws.BreakLeaves | tlang/texecute.c:126-161 | `break` leaves the loop it is meant for, and goes on to the loops around otherwise |
| ProgramLaws.ForBegins | tlang/texecute.c:166-171 | what a `for` loop begins with is an expression before it |
| ProgramLaws.ForIsWhile | tlang/texecute.c:166-199 | a `for` loop means a `while` loop whose body ends with the step, for every body that no break or continue leaves |
| ProgramLaws.ContinueStays | tlang/texecute.c:154-158 | `continue` to the label of an outer loop leaves no loop: the rounds are the same as without it |
| ProgramLaws.CatchMeans | tlang/texecute.c:288-310 | `try` with `catch` means the catch block, with no exception current, if the block throws, and the block otherwise |
| ProgramLaws.TryAlone | tlang/texecute.c:288-316 | `try` alone means its block, unless null is thrown or an exception is left over |
| ProgramLaws.FinallyRuns | tlang/texecute.c:309-316 | unless the catch block throws, the last block is run; what it throws is thrown, and otherwise the whole ends as the blocks before it did or throws the exception still current |
| ProgramLaws.FinallySkipped | tlang/texecute.c:293-306 | if the catch block throws, the last block is not begun, whatever it is |
| ProgramLaws.ThrownInside | tlang/texecute.c:313-316 | inside a last block even an empty `try` throws the exception that is still current, and the rest of the block is not run |
| RunLaws.ReturningCalled | tlang/teval.c:862-904 | in any run a call of a function that just returns `v` gives `v` |
| RunLaws.ReturningCalledBack | tlang/teval.c:657-707 | so does a call from C |
| RunLaws.AssignGives | tlang/teval.c:1392-1456 | in any run an assignment of `v` to any place gives `v` |
| RunLaws.FinallyLast | tlang/texecute.c:288-316 | a `try` that ends without throwing began with its block and ended with a run of its last block that did not throw |
| RunLaws.FinallyThrows | tlang/texecute.c:309-312 | a last block that throws is not lost |
| RunLaws.TryThrows | tlang/texecute.c:288-316 | a `try` throws if and only if its catch block or its last block does, or there is no catch block and an exception is current at the end |
| RunLaws.ExceptionLost | tlang/texecute.c:298-316 | `try { throw v; } finally { try { throw w; } catch (e) { } }` ends without throwing, and no exception is current |
| RunLaws.ForeachThrows | tlang/texecute.c:225-267 | a `foreach` runs its body for every item: with a body that throws it ends only if the iterator is done at once |

## Left out

- Interpreter.Interp.EvalExpression: a run that does not end within its fuel is only said to keep the interpreter's own invariant, because nothing is left of a run that does not come back.
- Interpreter.Interp.NativeCode: functions written in C are taken to take off what they push; their bodies are not modelled.
- Interpreter.Interp.EvalBinary: on integers, booleans and null the result is exact; on floating-point numbers and on the contents of objects it is any value of the right kind, and what operators compute there is in Folding.
- Denotation.OfExpr: says nothing of programs that name variables, look into objects, call functions in C or run into an error; there the rules of BigStep say what is run in which order and what it may give.
- Adequacy.Adequate: the variable of a `catch` may be one that cannot be assigned to, which the model leaves open; the lemma is about runs in which that does not happen.
- Interpreter.Interp.ExecForeach: the body is the list found through `for_s.block`, where the parser stores it.
- RbTraverse.Ldr: the callback is a pure function of the value that may stop the traversal.
- GcRuns.Run: what a program does after a slice or an insertion has shown it a freed object is undefined in C and not modelled.
- GcState.Next: counter and threshold are not part of the state, so whether an allocation collects is left open there; GcMutator.CheckGc says when it does.
- GcRuns.StepPopElement: the step is `CRB_array_pop`, for any index; the array method `pop` sets its argument to 0 before it looks at it (tlang/tnative.c:413), so what it takes out is always the first element.
- Folding.Fold: which of two errors is met first in an assignment, where the parser reads the left side first and the evaluator the right side, is not modelled; FoldFails does not depend on it.
- GcMutator.AddMember: the pointer returned after an insertion, which reads a slot that rebalancing may have moved, is not part of the model.
- Slices.Slice.Append: asks for storage below the greatest capacity, where the code would run out of memory.
- include/rbtree_tpl.h: the same algorithm as src/rbtree.c; association members are modelled as a map.
- Pointers into the value stack that the evaluator holds while the stack may be reallocated (tlang/teval.c:867-891, 1397-1407): values are read where the code reads them, but a stale pointer is not modelled.
- Rooting of the evaluator's temporaries: collector safety is stated for a mutator that keeps its references rooted.
- Native pointer finalizers, page storage, debug headers, `malloc` failure.
- The deque; `desc_order_int`, which is `asc_order_int` with its arguments exchanged.
- `import`, which compiles and runs a file; file and line reading; the lexer, the grammar and error texts; line numbers in folded expressions.
- The rounding of `log2` when a traversal opens its stack: the capacity is the exact integer floor.
- Bubble and selection sort, src/link.c and src/wstring.c: they would add only easy members.
