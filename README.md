# best-first-search, modelled in Dafny

This project models the sequential core of `best_first_search`. That is a
best-first (uniform-cost) search whose frontier is a *lazy heap*. The heap
holds sorted iterators instead of items, and only each iterator's head sits
in it. `push(it)` takes the head of `it` and inserts it under a fresh index.
`pop()` hands out the least head by `(cost, index)` and puts that iterator
back under its next item. Draining the heap therefore performs a lazy k-way
merge of ascending streams. Ties are broken first-in first-out, because the
index counter only grows.

The driver works as follows:

- It seeds the heap with `(initial_cost, (initial_node,))` and pops in a loop.
- It yields every popped path that ends in a solution.
- It expands every other popped path by pushing an iterator over the path's
  last node's sorted neighbours. Each candidate costs `cost_add(cost, c)` and
  extends the path by one node.

Both versions of the repository are covered:

- **Current version** (`src/best_first_search`).
  - The expansion iterator checks each candidate against a
    `node -> best cost` table *while it is advanced*. It skips a candidate
    that the table already dominates, and otherwise records it.
  - The loop counts iterations. It stops at `n_max_iters`, which is checked
    after the pop, and yields `(cost, n_iter, path)`.
- **Old version** (`best_first_search`).
  - The expansion iterator never prunes.
  - The table is checked *after the pop*: a popped path is thrown away when
    its last node is already recorded at no more than its cost.
  - Solutions are yielded as `(cost, path)`.

Modules:

- `Cursors` (`cursors.dfy`): the iterators the heap holds, as explicit
  cursors.
  - `Items` is a list iterator, such as the seed.
  - `Expand` is the `_iterate` generator.
  - `Pull` is one `next` call, with `None` for `StopIteration`. The driver's
    table goes into and comes out of each call.
  - `Next` is the generator's `for`/`continue` loop, proved equal to `Pull`.
- `LazyHeap` (`heap.dfy`): the single-thread heap as the class
  `SingleThread`, with fields `heap` and `index`.
  - Its methods `Push` and `Pop` are proved against the functional
    specifications `AfterPush` and `AfterPop`. `Stop` is proved to change
    nothing.
  - It keeps the invariant that indices are unique and below the counter, and
    that the heap holds at most one entry per pushed iterator.
  - The same class models the push/pop code shared by three single-thread
    heaps: `LazyHeapSingleThread` in both `heap.py` files, and the local
    `LazyHeap` in the old `search.py`. Only the `src` heap has `stop`, and
    the other two name the counter `_index`. `New` is the `LazyHeap.new` factory choice.
- `Merge` (`merge.dfy`): the k-way merge contract. Pushing ascending lists and
  then popping until `None` returns exactly their items, in non-decreasing
  cost.
- `Search` (`search.dfy`): the current `best_first_search`.
  - It is a state machine. `Step` is one turn of the `itertools.count()` loop,
    and `Run` is `fuel` turns.
  - The method `BestFirstSearch` runs the loop on the imperative heap and is
    proved equal to `Run`.
- `SearchOld` (`search_old.dfy`): the old `best_first_search`, built the same
  way.

The search is a lazy generator that its caller may stop pulling at any time.
The methods therefore take `fuel`, the number of loop turns the caller allows.
A run that ends with fuel left has returned by itself.

A walk (`Cursors.Walk`) is a path that starts at the initial node at the
initial cost, where each next node is one the producer lists for the node
before it, and the cost is `cost_add` applied to the increments of those
edges in turn. Both searches keep every heap entry, everything a heap
iterator can still produce, and everything yielded a walk at its own cost.
So every solution yielded is reachable at the cost reported, and a search
that can reach no solution yields nothing.

Best-first search is "a minimization problem". With memoisation off, both
searches are proved to give the cheapest solution first
(`Search.FirstIsCheapest`, `SearchOld.FirstIsCheapest`). The argument names
a walk by its edge choices: the position, in the producer's list, of each
edge taken (`Cursors.Follow`). Until the first yield, every walk to a
solution has a prefix still to come out of the heap (`LazyHeap.Covers`):
as an entry's head, or as a candidate one of its iterators has not reached.
Under `WellBehaved` the first solution popped costs no more than that
prefix, and the rest of the walk can only add cost. With memoisation
on, the current search keeps every heap entry and every yielded path past
the initial node recorded in the memo at no more than its cost
(`Search.MemoOk`, part of the loop invariant). Optimality is not proved with
memoisation on, and `Search.MemoMissesCheapest` shows it can fail.

The costs, the neighbour producer, `is_solution` and `cost_add` are
parameters, with `Cost = int`. The producer is a function from a node to a
finite `seq<(int, N)>`. The ordering results rest on three conditions,
together `WellBehaved`:

- neighbours come sorted by incremental cost. This is the only one the
  source documents: `get_sorted_neighbor_iterator` must go "through
  neighbors in cost ascending order"
  (`src/best_first_search/search.py:24-25`, `best_first_search/search.py:65-66`);
- `cost_add` is monotone in the increment;
- no edge lowers the accumulated cost.

The last two appear nowhere in the source or its docstrings. The model adds
them because without them the output need not be non-decreasing: with a
negative increment, a path of cost 1 can be yielded before its extension of
cost −8. The results that do not mention `WellBehaved` (walks, solutions,
iteration numbers, the cap, the memo rules) hold for any producer and any
`cost_add`.

Cap check order: the iteration cap is tested only after the pop. The code
(`src/best_first_search/search.py:56-62`) pops first and then tests
`n_iter >= n_max_iters`. The turn that hits the cap therefore
still advances an iterator, and with it possibly the table. The model follows
the code (`Search.Step`, `Search.StepRules`).

## Model

| member | source | states |
|---|---|---|
| Cursors.FirstKept | src/best_first_search/search.py:44-53 | the position of the first candidate the generator does not skip: every candidate before it is dominated under the memo, and the one at it (if any) is not |
| Cursors.FirstKeptUnique | src/best_first_search/search.py:44-53 | any position with "all before skipped, itself kept" is exactly `FirstKept` |
| Cursors.FirstKeptStep | src/best_first_search/search.py:47-53 | one loop turn: a skipped candidate passes the answer to the rest, a kept one is the answer |
| Cursors.Pull | src/best_first_search/search.py:43-54 | a `next` that yields consumes at least one candidate; exhaustion leaves nothing unread |
| Cursors.Next | src/best_first_search/search.py:44-54 | the generator's `for` loop with `continue` past dominated candidates computes exactly `Pull` |
| Cursors.CandidateRule | src/best_first_search/search.py:44-54 | for the candidate at the cursor, `total = cost_add(cost, c)`; it is skipped iff pruning is on and `memo[n] <= total`, else `(total, path + [n])` is yielded and `memo[n] := total` when pruning |
| Cursors.ExhaustedStaysExhausted | src/best_first_search/heap.py:54-59 | once `next` reports `StopIteration`, it keeps doing so and changes nothing |
| Cursors.PullMemo | src/best_first_search/search.py:46-53 | no memo entry is ever removed; an entry only changes by being strictly lowered, only for the yielded path's last node, to the yielded cost; without pruning the memo is untouched |
| Cursors.StreamOfItems | src/best_first_search/search.py:41 | a list iterator (the seed) yields exactly its remaining items in order |
| Cursors.StreamWithoutPruning | src/best_first_search/search.py:44-54 | with `memoize_bound` off, `_iterate` yields every neighbour in producer order, at `cost_add(base, c)`, each path extended by exactly that node; the old `_iterate` (best_first_search/search.py:80-82) is this cursor |
| Cursors.ExtensionsShape | best_first_search/search.py:80-82 | the unpruned expansion has one item per unread neighbour, the i-th being `(cost_add(base, c_i), path + [n_i])` |
| Cursors.PullAscending | src/best_first_search/heap.py:23 | an item pulled from an ascending cursor costs at least the cursor's bound and bounds what follows |
| Cursors.StreamAscending | src/best_first_search/heap.py:1-3 | draining an ascending cursor, pruned or not, gives an ascending stream of costs |
| Cursors.ExpansionAscending | src/best_first_search/search.py:24-25 | given sorted neighbours and a monotone, non-decreasing `cost_add`, an expansion yields ascending totals none below the path's cost |
| Cursors.PullRooted | src/best_first_search/search.py:41-54 | cursors built from rooted paths only yield paths starting at the initial node; an expansion yields its path plus one node |
| Cursors.WalkExtend | src/best_first_search/search.py:43-54 | a walk extended by one `(increment, neighbour)` the producer gives for its last node, at `cost_add(cost, increment)`, is a walk |
| Cursors.PullWalks | src/best_first_search/search.py:43-54 | a cursor made of walks (a list of walks, or `_iterate` of a walk over the producer's list for its last node) yields a walk and stays a cursor of walks |
| Cursors.Stream | src/best_first_search/search.py:43-54 | what a cursor yields when drained with nothing else touching the memo: never more items than it has unread candidates |
| Cursors.Extensions | best_first_search/search.py:80-82 | the unpruned `_iterate` output: exactly one item per unread neighbour |
| Cursors.Edge | src/best_first_search/search.py:44-45 | the `i`-th `(increment, neighbour)` the producer lists for a path's last node exists iff `i` is in range, and extends the path by exactly that node at `cost_add(cost, increment)` |
| Cursors.Follow | src/best_first_search/search.py:43-54 | following a sequence of edge choices from a path adds exactly one node per choice |
| Cursors.FromRoot | src/best_first_search/search.py:41-54 | edge choices followed from the seed `(initial_cost, [initial_node])` give a path one node longer than the choices |
| Cursors.FollowAppend | src/best_first_search/search.py:43-54 | one more choice at the end is one more edge from where the other choices lead |
| Cursors.FollowSplit | src/best_first_search/search.py:43-54 | following a choice sequence is following its first `k` choices and then the rest from there |
| Cursors.FollowGrows | src/best_first_search/search.py:43-45 | when no edge lowers the accumulated cost, following edges never lowers it |
| Cursors.WalkFollow | src/best_first_search/search.py:41-54 | every walk is where some sequence of edge choices leads from the seed |
| Cursors.ExpansionOffers | best_first_search/search.py:80-82 | a fresh `_iterate` of a path still offers every edge out of the path's last node |
| Cursors.PullOffers | best_first_search/search.py:80-82 | without pruning, `next` yields whenever a candidate is still offered, and that candidate is either the item yielded or still offered afterwards |
| Cursors.OffersAbove | src/best_first_search/heap.py:23 | whatever an ascending iterator still offers costs at least its bound |
| Cursors.PullMemoCursor | src/best_first_search/search.py:46-54 | an iterator that checks the memo stays one; any path past the start node that it yields has its last node recorded in the memo afterwards, at no more than its cost |
| LazyHeap.New | src/best_first_search/heap.py:35-40 | `new(n_thread)` builds the single-thread heap iff `n_thread <= 0`; best_first_search/heap.py:35-40 makes the same choice |
| LazyHeap.MinPos | src/best_first_search/heap.py:67 | the entry `heappop` removes is least by `(cost, index)` |
| LazyHeap.MinUnique | src/best_first_search/heap.py:50-57 | with unique indices the least entry is unique |
| LazyHeap.MinIndex | src/best_first_search/heap.py:67 | the search for the least entry finds one least by `(cost, index)` |
| LazyHeap.AfterPush | src/best_first_search/heap.py:52-59 | `push` only appends, at most one entry, and moves the counter by exactly the number of entries added |
| LazyHeap.AfterPop | src/best_first_search/heap.py:64-75 | `pop` returns `None` exactly on an empty heap, then changing nothing; otherwise the heap loses one entry per index not handed out, and the counter moves by at most one |
| LazyHeap.SingleThread.constructor | src/best_first_search/heap.py:48-50 | an empty heap, counter 0, invariant established; likewise best_first_search/heap.py:45-47 and best_first_search/search.py:24-26 |
| LazyHeap.SingleThread.Push | src/best_first_search/heap.py:52-59 | keeps the invariant; an exhausted iterator leaves `heap` and `index` unchanged; otherwise exactly one entry `(head cost, index, head path, rest)` is added and `index` grows by one; likewise best_first_search/heap.py:49-56 and best_first_search/search.py:28-35 |
| LazyHeap.SingleThread.Pop | src/best_first_search/heap.py:64-75 | keeps the invariant (one entry per iterator) and computes `AfterPop`: `None` on an empty heap, else the least entry's `(cost, path)` with its iterator re-inserted once or dropped; likewise best_first_search/heap.py:58-69 and best_first_search/search.py:37-48 |
| LazyHeap.SingleThread.Stop | src/best_first_search/heap.py:61-62 | `stop` changes nothing |
| LazyHeap.OwnersKept | src/best_first_search/heap.py:67-73 | removing the popped entry and re-inserting its iterator at most once keeps one entry per iterator |
| LazyHeap.PushEffect | src/best_first_search/heap.py:52-59 | pushing an exhausted iterator changes nothing; otherwise exactly its head is appended under the current index and the counter moves by one |
| LazyHeap.PopReturnsLeast | src/best_first_search/heap.py:64-75 | `pop` returns `None` exactly on an empty heap, changing nothing; otherwise the `(cost, node)` of the entry strictly before all others by `(cost, index)`, i.e. FIFO among equal costs |
| LazyHeap.PopEffect | src/best_first_search/heap.py:68-73 | no other entry changes: the popped iterator comes back once under the fresh index (size kept) or is dropped (size minus one) |
| LazyHeap.InsertWellFormed | src/best_first_search/heap.py:56-57 | inserting under the counter and bumping it keeps indices unique and below the counter |
| LazyHeap.RemoveWellFormed | src/best_first_search/heap.py:67 | removing an entry keeps indices unique and below the counter |
| LazyHeap.WellFormedKept | src/best_first_search/heap.py:50-71 | push and pop keep indices unique and below the counter, and the counter never decreases |
| LazyHeap.PopOrdered | src/best_first_search/heap.py:64-75 | popping a heap of ascending iterators keeps it ordered and hands out a cost that bounds the rest |
| LazyHeap.PushOrdered | src/best_first_search/heap.py:52-59 | pushing an ascending iterator keeps the heap ordered and keeps any floor its head respects |
| LazyHeap.PopFloor | src/best_first_search/heap.py:67 | the popped cost is no more than any entry's |
| LazyHeap.PopsNonDecreasing | src/best_first_search/heap.py:64-75 | two successive pops from an ordered heap come out in non-decreasing cost |
| LazyHeap.PopRooted | src/best_first_search/search.py:41-57 | popping a rooted heap hands out a rooted path and leaves it rooted, with the pruning flag uniform |
| LazyHeap.PushRooted | src/best_first_search/search.py:72 | pushing a rooted cursor keeps the heap rooted and the pruning flag uniform |
| LazyHeap.PopWalks | src/best_first_search/heap.py:64-75 | a heap whose entries and iterators hold only walks pops a walk and keeps that property |
| LazyHeap.PushWalks | src/best_first_search/heap.py:52-59 | pushing an iterator of walks keeps a heap of walks |
| LazyHeap.MemoUntouched | best_first_search/search.py:80-82 | with no pruning iterator in the heap, push and pop leave the memo alone |
| LazyHeap.UpcomingBound | src/best_first_search/heap.py:64-67 | an ordered heap pops nothing dearer than what is still to come out of it, whether an entry's head or a candidate an iterator has not reached yet |
| LazyHeap.RemoveKeeps | src/best_first_search/heap.py:67 | removing the popped entry keeps every other entry |
| LazyHeap.PopUpcoming | src/best_first_search/heap.py:64-75 | with no iterator checking the memo, a pop either hands out what was still to come or leaves it still to come |
| LazyHeap.PushUpcoming | src/best_first_search/heap.py:52-59 | a push keeps what was still to come, and adds every candidate the pushed iterator offers when that iterator does not check the memo |
| LazyHeap.CoversNonEmpty | src/best_first_search/heap.py:64-66 | a heap that covers a walk is not empty, so `pop` does not return `None` |
| LazyHeap.PopCovers | src/best_first_search/search.py:57-72 | a pop from a heap that covers a walk and checks no memo returns either that walk itself or a walk on its way whose expansion, once pushed, covers it again |
| LazyHeap.PushCovers | src/best_first_search/search.py:72 | pushing the expansion of a walk that the first `k` choices lead to covers the target one edge further along |
| LazyHeap.PopBelowCovered | src/best_first_search/heap.py:64-67 | when no edge lowers a cost, an ordered heap that covers a walk pops nothing dearer than that walk |
| LazyHeap.PopMemoised | src/best_first_search/search.py:46-57 | when every iterator checks the memo, a pop keeps every entry past the start node recorded in the memo at no more than its cost, only lowers the memo, and hands out a path so recorded |
| LazyHeap.PushMemoised | src/best_first_search/search.py:46-72 | pushing an iterator that checks the memo keeps the same property and only lowers the memo |
| Merge.PendingRemove | src/best_first_search/heap.py:67 | what a heap owes splits into the removed entry's debt and the rest |
| Merge.PopPending | src/best_first_search/heap.py:64-75 | a pop on a heap of list iterators hands out one pending item and removes exactly it from what is pending |
| Merge.PopLeastPending | src/best_first_search/heap.py:64-67 | the popped item costs no more than anything still pending |
| Merge.DrainMerges | src/best_first_search/heap.py:64-75 | popping an ordered heap of list iterators until `None` returns exactly its pending items, ascending |
| Merge.PushListPending | src/best_first_search/heap.py:52-59 | pushing one ascending list adds exactly its items to what is pending and keeps the heap ordered |
| Merge.PushAllPending | src/best_first_search/heap.py:52-59 | pushing ascending lists in turn adds exactly all their items |
| Merge.Drain | src/best_first_search/heap.py:64-75 | popping until `None` hands out exactly as many items as are pending |
| Merge.MergeOfAscendingLists | src/best_first_search/heap.py:52-75 | pushes then pops until `None`: every item of every ascending list exactly once, in non-decreasing cost; the old heap (best_first_search/heap.py:49-69) is the same class |
| Search.StartInv | src/best_first_search/search.py:38-41 | the seed state is one entry `(initial_cost, [initial_node])` and an empty memo without `initial_node`, and satisfies the invariant |
| Search.Start | src/best_first_search/search.py:38-41 | the seed state: one heap entry, an empty memo, iteration 0, nothing yielded, running |
| Search.Step | src/best_first_search/search.py:56-76 | one turn consumes one iteration number unless it returns, and yields at most one item, appended to what was yielded |
| Search.Resume | src/best_first_search/search.py:59-76 | the rest of a turn after the pop: returns `Capped` iff `n_iter >= n_max_iters`; otherwise consumes one iteration unless it returns; yields at most one item |
| Search.Run | src/best_first_search/search.py:56-76 | `fuel` turns use at most `fuel` iteration numbers and yield at most `fuel` items, extending what was yielded |
| Search.StepStructure | src/best_first_search/search.py:56-73 | a turn keeps indices well formed, the heap rooted, the pruning flag uniform, and the memo empty when memoisation is off |
| Search.StepFound | src/best_first_search/search.py:71-76 | after a turn every yielded path solves the problem, iteration numbers increase strictly, stay below the current one and below the cap |
| Search.StepWalks | src/best_first_search/search.py:56-76 | a turn keeps every heap entry, every iterator's output and every yielded path a walk of the graph at its own cost |
| Search.ExpansionOrder | src/best_first_search/search.py:43-72 | pushing a popped path's expansion keeps the heap ordered with nothing below the popped cost |
| Search.PopOrder | src/best_first_search/search.py:57 | the pop keeps the heap ordered and comes out no cheaper than the last solution |
| Search.ResumeOrder | src/best_first_search/search.py:59-76 | the rest of the turn keeps the heap ordered, the solutions ascending, and the heap above the last solution |
| Search.StepOrder | src/best_first_search/search.py:56-76 | a turn keeps that ordering invariant |
| Search.StepKeepsInv | src/best_first_search/search.py:56-76 | a turn keeps the whole loop invariant |
| Search.StepGrows | src/best_first_search/search.py:56-76 | a turn never takes back an iteration number or a yielded item |
| Search.StepRules | src/best_first_search/search.py:56-76 | the turn returns Capped iff `n_iter >= n_max_iters`, checked after the pop; Exhausted iff not capped and the heap is empty; otherwise it consumes one iteration and either yields `(cost, n_iter, path)` without expanding or pushes exactly one expansion |
| Search.StepMemo | src/best_first_search/search.py:46-72 | a turn never removes a memo entry, and an entry that changes falls strictly |
| Search.StepMemoOk | src/best_first_search/search.py:46-76 | with `memoize_bound` on, a turn keeps every heap entry and every yielded path past the initial node recorded in `node2best_cost`, at no more than its cost |
| Search.ExtendsTrans | src/best_first_search/search.py:56-76 | "later in the same run" is transitive |
| Search.AdvanceInv | src/best_first_search/search.py:56-76 | one more turn of the loop keeps the invariant and extends the run |
| Search.RunInv | src/best_first_search/search.py:56-76 | every run keeps the invariant, takes back no iteration number or yielded item, and a returned search stays returned (that it then changes nothing is `RunStays`) |
| Search.RunHalted | src/best_first_search/search.py:59-67 | a returned generator stays returned |
| Search.RunStays | src/best_first_search/search.py:59-67 | after the search returned, more fuel changes nothing |
| Search.IncreasingBelowCap | src/best_first_search/search.py:59-62 | strictly increasing naturals below `k` are at most `k` many |
| Search.RunYields | src/best_first_search/search.py:56-76 | every yielded path is a walk of the producer's graph from `initial_node` at the cost `cost_add` accumulates along it, and ends in a solution; `n_iter` strictly increases; with `n_max_iters = k` no `n_iter >= k` and at most `k` solutions; under `WellBehaved` the costs are non-decreasing |
| Search.UnreachableYieldsNothing | src/best_first_search/search.py:56-76 | when no walk from `initial_node` ends in a solution node, the search yields nothing, whatever the fuel |
| Search.InvYields | src/best_first_search/search.py:56-76 | `RunYields`' statement for any state of the loop invariant |
| Search.RunMemoises | src/best_first_search/search.py:38-76 | with memoisation on, after any run the memo records the last node of every yielded path past the initial node, at no more than its cost |
| Search.StartCheap | src/best_first_search/search.py:38-41 | the seed covers every walk to a solution, since it holds the initial path itself |
| Search.StepCheap | src/best_first_search/search.py:56-76 | with memoisation off, a turn keeps three facts. Until something is yielded, the heap covers every walk to a solution. A search that returns empty-handed because the heap ran dry had no walk to a solution. Under `WellBehaved`, the first solution yielded costs no more than any walk to a solution |
| Search.AdvanceCheap | src/best_first_search/search.py:56-76 | one more turn keeps those facts |
| Search.RunCheap | src/best_first_search/search.py:56-76 | every run from a state of the invariant keeps those facts |
| Search.RunCheapFromStart | src/best_first_search/search.py:38-76 | every run from the seed has those facts |
| Search.FirstIsCheapest | src/best_first_search/search.py:19-76 | "a minimization problem": with `memoize_bound` off and `WellBehaved`, the first solution yielded costs no more than any walk from `initial_node` to a solution node |
| Search.ExhaustedMeansUnsolvable | src/best_first_search/search.py:64-67 | with `memoize_bound` off, a search that returns because the heap is empty has yielded something whenever some walk reaches a solution node |
| Search.MemoMissesCheapest | src/best_first_search/search.py:46-53 | a `WellBehaved` producer whose cheapest solution costs 2, on which the memoised search yields the solution at cost 100 first, on its third turn: with `memoize_bound` on, `FirstIsCheapest` fails |
| Search.TrapWellBehaved | src/best_first_search/search.py:24-25 | the example producer is sorted, with a `cost_add` monotone in the increment and never below the accumulated cost |
| Search.TrapWalk | src/best_first_search/search.py:43-54 | in the example, `[0, 1, 2]` is a walk of cost 2 |
| Search.TrapTurn0 | src/best_first_search/search.py:56-73 | the first turn pops the seed and yields node 1 at cost 1 from the expansion of node 0, recording it |
| Search.TrapTurn1 | src/best_first_search/search.py:46-73 | the second turn skips node 1 at cost 2, dominated by the memo, and the expansion of node 1 yields node 2 at cost 100 |
| Search.TrapTurn2 | src/best_first_search/search.py:56-76 | the third turn pops node 2 at cost 100 and yields it |
| Search.Turn | src/best_first_search/search.py:56-76 | one turn on the imperative heap computes exactly `Step` |
| Search.Continue | src/best_first_search/search.py:59-76 | the rest of a turn after the pop computes exactly `Resume` |
| Search.BestFirstSearch | src/best_first_search/search.py:8-76 | the generator run for `fuel` turns of its loop yields exactly `Run`'s solutions and ends in `Run`'s status |
| SearchOld.StartInv | best_first_search/search.py:75-78 | the seed state is one entry `(initial_cost, [initial_node])` and an empty table, and satisfies the invariant |
| SearchOld.Start | best_first_search/search.py:75-78 | the seed state: one heap entry, an empty table, nothing yielded, not returned |
| SearchOld.Step | best_first_search/search.py:84-104 | one turn yields at most one item, appended to what was yielded; a turn that returns yields nothing and leaves the table alone |
| SearchOld.Resume | best_first_search/search.py:84-104 | the rest of a turn after the pop returns iff the pop gave `None`, and yields at most one item |
| SearchOld.Run | best_first_search/search.py:84-105 | `fuel` turns yield at most `fuel` items, extending what was yielded |
| SearchOld.StepStructure | best_first_search/search.py:84-101 | a turn keeps indices well formed, the heap rooted and free of pruning iterators, and the table unused when memoisation is off |
| SearchOld.StepKnown | best_first_search/search.py:90-96 | table entries are never removed, and an entry that changes falls strictly |
| SearchOld.StepFound | best_first_search/search.py:90-104 | after a turn every yielded path solves the problem and its last node is recorded at no more than its cost |
| SearchOld.StepWalks | best_first_search/search.py:84-104 | a turn keeps every heap entry, every iterator's output and every yielded path a walk of the graph at its own cost |
| SearchOld.PopOrder | best_first_search/search.py:84 | the pop keeps the heap ordered and comes out no cheaper than the last solution |
| SearchOld.NewEnd | best_first_search/search.py:90-104 | a solution that survives the pop-time check ends in a node no earlier solution ended in |
| SearchOld.YieldOrder | best_first_search/search.py:103-104 | yielding keeps costs ascending and, with memoisation on, end nodes distinct |
| SearchOld.ResumeOrder | best_first_search/search.py:88-104 | the rest of the turn keeps the ordering invariant |
| SearchOld.StepOrder | best_first_search/search.py:84-104 | a turn keeps the ordering invariant |
| SearchOld.StepKeepsInv | best_first_search/search.py:84-104 | a turn keeps the whole loop invariant |
| SearchOld.StepRules | best_first_search/search.py:84-104 | the search returns exactly when `pop` finds the heap empty; with memoisation on a popped path is discarded iff its last node is recorded at `<=` its cost, else recorded at its cost; a kept solution is yielded as `(cost, path)` and not expanded, a kept non-solution gets exactly one `_iterate` pushed |
| SearchOld.ExtendsTrans | best_first_search/search.py:84-104 | "later in the same run" is transitive |
| SearchOld.AdvanceInv | best_first_search/search.py:84-104 | one more turn of the loop keeps the invariant and extends the run |
| SearchOld.AdvanceExtends | best_first_search/search.py:84-104 | one more turn after a run that extends the start state still extends it |
| SearchOld.RunInv | best_first_search/search.py:84-105 | every run keeps the invariant, takes nothing back, only narrows the table, and a returned search stays returned (that it then changes nothing is `RunStays`) |
| SearchOld.RunHalted | best_first_search/search.py:84-105 | a returned generator stays returned |
| SearchOld.RunStays | best_first_search/search.py:84-105 | after the search returned, more fuel changes nothing |
| SearchOld.RunYields | best_first_search/search.py:84-105 | every yielded path is a walk of the producer's graph from `initial_node` at the cost `cost_add` accumulates along it, and ends in a solution; under `WellBehaved` costs are non-decreasing and, with memoisation on, no solution node is yielded twice |
| SearchOld.UnreachableYieldsNothing | best_first_search/search.py:84-105 | when no walk from `initial_node` ends in a solution node, the search yields nothing, whatever the fuel |
| SearchOld.StartCheap | best_first_search/search.py:75-78 | the seed covers every walk to a solution, since it holds the initial path itself |
| SearchOld.StepCheap | best_first_search/search.py:84-104 | with memoisation off, a turn keeps three facts. Until something is yielded, the heap covers every walk to a solution. A search that has returned empty-handed had no walk to a solution. Under `WellBehaved`, the first solution yielded costs no more than any walk to a solution |
| SearchOld.AdvanceCheap | best_first_search/search.py:84-104 | one more turn keeps those facts |
| SearchOld.RunCheap | best_first_search/search.py:84-105 | every run from a state of the invariant keeps those facts |
| SearchOld.RunCheapFromStart | best_first_search/search.py:75-105 | every run from the seed has those facts |
| SearchOld.FirstIsCheapest | best_first_search/search.py:60-105 | "a minimization problem": with `memoize_bound` off and `WellBehaved`, the first solution yielded costs no more than any walk from `initial_node` to a solution node |
| SearchOld.ReturnedMeansUnsolvable | best_first_search/search.py:84-87 | with `memoize_bound` off, a search that has returned has yielded something whenever some walk reaches a solution node |
| SearchOld.Turn | best_first_search/search.py:84-104 | one turn on the imperative heap computes exactly `Step` |
| SearchOld.Continue | best_first_search/search.py:86-104 | the rest of a turn after the pop computes exactly `Resume` |
| SearchOld.BestFirstSearch | best_first_search/search.py:51-105 | the generator run for `fuel` turns of its loop yields exactly `Run`'s solutions and has returned iff `Run` has |

## Left out

- `LazyHeapMultithread` in both heap files (thread pool, lock, futures, cancellation) and every `n_thread > 0` run are not modelled: they are about concurrency. `LazyHeap.New` only records which heap the factory picks.
- `heapq`'s sift algorithm: the heap is a sequence where `heappush` appends and `heappop` removes the `(cost, index)`-least entry. Only that contract matters to the heap.
- `SupportsComparison` becomes `int`, and the producer's possibly infinite iterator becomes a finite `seq<(int, N)>`.
- The heap holds only the two kinds of iterator the search gives it: list iterators and `_iterate`. The heap's own contract (`Push`, `Pop`) is stated for these cursors, not for arbitrary Python iterators. The merge lemmas (`Merge`) are narrower still: they cover heaps of list iterators only (`Merge.ItemsOnly`), not `_iterate` cursors.
- Laziness of the generator: a run is bounded by `fuel`, the number of loop turns its consumer allows. The generator's suspension between yields is not modelled beyond that.
- `Search.Advance` and `SearchOld.Advance` only make a turn total. Every reachable state meets their guard (rooted heap, uniform pruning flag), by `Search.RunInv` and `SearchOld.RunInv`.
- `Search.BestFirstSearch` and `SearchOld.BestFirstSearch`: their `ensures` states only the equality with `Run`. The promised properties of the yielded sequence are stated in `Search.RunYields` and `SearchOld.RunYields`.
- Merge.MergeOfAscendingLists: states the drained output as a permutation of all items in non-decreasing cost. It does not state which of two equal-cost items comes first. FIFO among equal costs is stated per pop in `LazyHeap.PopReturnsLeast`.
- Search.RunYields and Search.FirstIsCheapest: optimality of the first solution is proved only with `memoize_bound` off. With it on, it does not hold under `WellBehaved` alone. `Search.MemoMissesCheapest` is a counterexample. Its `cost_add(a, c)` is 100 when `a == 1` and `a + c` otherwise, so it is not monotone in the accumulated cost. The memo prunes the cheaper of two paths to a node, and with it the only cheap continuation. The memo case is not proved here even for a `cost_add` monotone in both arguments.
- SearchOld.RunYields and SearchOld.FirstIsCheapest: the same limit. With `memoize_bound` on, optimality of the first solution is not proved. A popped path is discarded when an earlier, no dearer path to the same node was popped, and a `cost_add` that is not monotone in the accumulated cost can make the discarded path's continuations the cheaper ones.
- `Dict[Node, Optional[Cost]]`: no `None` is ever stored, so the table is `map<N, int>`.
- The old loop's inner `if result is None: return` cannot run. The walrus `while` already exits on `None`, and a popped pair is a non-empty, truthy tuple. The model has the single exit.
- LazyHeap.SingleThread.Push: the producer, `is_solution` and `cost_add` are total functions here. In Python anything they raise propagates out of `push`, `pop` and the generator; the model has no exception path. In particular, an exception inside `next(rest)` in `pop` loses the entry `heappop` already removed (src/best_first_search/heap.py:67-69), which the model does not capture.
- LazyHeap.SingleThread.Pop: the same exception path through `next(rest)` is not modelled (see the line above).
- LazyHeap.SingleThread.Push: cursors are values, so "at most one entry per pushed iterator" (`owner`, `streams`) counts pushes. In Python, pushing the same iterator object twice would give two entries that advance one shared iterator. That aliasing is not modelled; the search never pushes an iterator twice.
- `LazyHeap.SingleThread.Stop` has nothing to model in the single-thread heap. The old heap and the old search have no `stop`, and the old model calls none.
