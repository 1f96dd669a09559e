/**
 * The sorted iterators that the lazy heap holds, made explicit.
 *
 * The search only ever hands two kinds of iterator to the heap: a list
 * iterator (the one-element seed, or any pre-sorted list) and the `_iterate`
 * generator, which walks the sorted neighbours of a path's last node, adds
 * each incremental cost to the path's cost and, when memoisation is on,
 * drops candidates that a recorded cost already dominates. A cursor stores
 * exactly what such an iterator remembers between two `next` calls; `Pull`
 * is one `next` call, with `None` standing for `StopIteration`.
 *
 * The generator reads and writes the driver's `node -> best cost` table while
 * it is advanced, so that table goes in and comes out of every `Pull`.
 */
module Cursors {

  datatype Option<T> = None | Some(value: T)

  /** A search path: the initial node first, the node to expand last. */
  type Path<N> = seq<N>

  /** The driver's table from a node to the best accumulated cost known for it. */
  type Memo<N> = map<N, int>

  datatype Cursor<N> =
      /** A list iterator over `items`, `pos` items already consumed. */
    | Items(items: seq<(int, Path<N>)>, pos: nat)
      /** `_iterate(base, path)`: `neighbours` is the producer's sorted output for
          the last node of `path`, `pos` candidates already considered, and
          `prune` says whether candidates are checked against the memo. */
    | Expand(base: int, path: Path<N>, neighbours: seq<(int, N)>, pos: nat, prune: bool)

  /** What one `next` call gives back: the item (or exhaustion), the advanced
      cursor, and the memo as the generator left it. */
  datatype Pulled<N> = Pulled(item: Option<(int, Path<N>)>, rest: Cursor<N>, memo: Memo<N>)

  function Last<N>(path: Path<N>): N
    requires |path| > 0
  {
    path[|path| - 1]
  }

  /** Number of candidates the cursor has not looked at yet. */
  function Unread<N>(c: Cursor<N>): nat
  {
    match c
    case Items(items, pos) => if pos < |items| then |items| - pos else 0
    case Expand(_, _, nbrs, pos, _) => if pos < |nbrs| then |nbrs| - pos else 0
  }

  /** The same iterator with `pos` candidates consumed. */
  function At<N>(c: Cursor<N>, pos: nat): (c': Cursor<N>)
    ensures c'.pos == pos
    ensures c.Items? ==> c' == Items(c.items, pos)
    ensures c.Expand? ==> c' == Expand(c.base, c.path, c.neighbours, pos, c.prune)
  {
    match c
    case Items(items, _) => Items(items, pos)
    case Expand(base, path, nbrs, _, prune) => Expand(base, path, nbrs, pos, prune)
  }

  /** `cost_add(base, c)` for the `i`-th neighbour of an expansion cursor. */
  function Total<N>(c: Cursor<N>, i: nat, costAdd: (int, int) -> int): int
    requires c.Expand? && i < |c.neighbours|
  {
    costAdd(c.base, c.neighbours[i].0)
  }

  /** A recorded cost for `node` that is no worse than `total`. */
  predicate Dominated<N>(memo: Memo<N>, node: N, total: int)
  {
    node in memo && memo[node] <= total
  }

  /** Whether the generator skips its `i`-th candidate under `memo`. */
  predicate Skipped<N>(c: Cursor<N>, i: nat, costAdd: (int, int) -> int, memo: Memo<N>)
    requires c.Expand? && i < |c.neighbours|
  {
    c.prune && Dominated(memo, c.neighbours[i].1, Total(c, i, costAdd))
  }

  /** The position of the first candidate, from `c.pos` on, that the generator
      does not skip; past the end when every remaining candidate is skipped. */
  function FirstKept<N>(c: Cursor<N>, costAdd: (int, int) -> int, memo: Memo<N>): (j: nat)
    requires c.Expand?
    ensures c.pos <= j
    ensures j <= |c.neighbours| || j == c.pos
    ensures forall i :: c.pos <= i < j ==> i < |c.neighbours| && Skipped(c, i, costAdd, memo)
    ensures j < |c.neighbours| ==> !Skipped(c, j, costAdd, memo)
    decreases |c.neighbours| - c.pos
  {
    if c.pos < |c.neighbours| && Skipped(c, c.pos, costAdd, memo) then
      var c' := At(c, c.pos + 1);
      assert forall i :: c.pos < i < |c.neighbours| ==>
        Skipped(c', i, costAdd, memo) == Skipped(c, i, costAdd, memo);
      FirstKept(c', costAdd, memo)
    else
      c.pos
  }

  /** `FirstKept` is the only position with its two properties: everything
      before it skipped and (when in range) itself kept. */
  lemma FirstKeptUnique<N>(c: Cursor<N>, costAdd: (int, int) -> int, memo: Memo<N>, j: nat)
    requires c.Expand? && c.pos <= j && (j <= |c.neighbours| || j == c.pos)
    requires forall i :: c.pos <= i < j ==> i < |c.neighbours| && Skipped(c, i, costAdd, memo)
    requires j < |c.neighbours| ==> !Skipped(c, j, costAdd, memo)
    ensures FirstKept(c, costAdd, memo) == j
  {
    var k := FirstKept(c, costAdd, memo);
  }

  /** One turn of the generator's `for` loop, seen through `FirstKept`: a
      skipped candidate leaves the answer to the rest of the loop, a kept one
      is the answer. */
  lemma FirstKeptStep<N>(c: Cursor<N>, costAdd: (int, int) -> int, memo: Memo<N>)
    requires c.Expand? && c.pos < |c.neighbours|
    ensures Skipped(c, c.pos, costAdd, memo) ==>
      FirstKept(c, costAdd, memo) == FirstKept(At(c, c.pos + 1), costAdd, memo)
    ensures !Skipped(c, c.pos, costAdd, memo) ==> FirstKept(c, costAdd, memo) == c.pos
  {
  }

  /** One `next` call on the cursor. */
  function Pull<N>(c: Cursor<N>, costAdd: (int, int) -> int, memo: Memo<N>): (p: Pulled<N>)
    ensures p.item.Some? ==> Unread(p.rest) < Unread(c)
    ensures p.item.None? ==> Unread(p.rest) == 0
  {
    match c
    case Items(items, pos) =>
      if pos < |items| then Pulled(Some(items[pos]), At(c, pos + 1), memo)
      else Pulled(None, c, memo)
    case Expand(_, path, nbrs, _, prune) =>
      var j := FirstKept(c, costAdd, memo);
      if j < |nbrs| then
        var total := Total(c, j, costAdd);
        Pulled(Some((total, path + [nbrs[j].1])), At(c, j + 1),
               if prune then memo[nbrs[j].1 := total] else memo)
      else
        Pulled(None, At(c, j), memo)
  }

  /** `next(iterator)`: for an expansion cursor, the generator's `for` loop,
      which `continue`s past dominated candidates and yields the first other one. */
  method Next<N(==)>(c: Cursor<N>, costAdd: (int, int) -> int, memo: Memo<N>) returns (p: Pulled<N>)
    ensures p == Pull(c, costAdd, memo)
  {
    match c
    case Items(items, pos) =>
      if pos < |items| {
        p := Pulled(Some(items[pos]), At(c, pos + 1), memo);
      } else {
        p := Pulled(None, c, memo);
      }
    case Expand(base, path, nbrs, pos0, prune) =>
      var pos := pos0;
      while pos < |nbrs|
        invariant pos0 <= pos && (pos <= |nbrs| || pos == pos0)
        invariant forall i :: pos0 <= i < pos ==> Skipped(c, i, costAdd, memo)
        decreases |nbrs| - pos
      {
        var (cost, node) := nbrs[pos];
        var total := costAdd(base, cost);
        assert Total(c, pos, costAdd) == total;
        if prune && node in memo && memo[node] <= total {
          // a path at least as cheap to this node is already known
          pos := pos + 1;
          continue;
        }
        var memo' := if prune then memo[node := total] else memo;
        FirstKeptUnique(c, costAdd, memo, pos);
        return Pulled(Some((total, path + [node])), At(c, pos + 1), memo');
      }
      FirstKeptUnique(c, costAdd, memo, pos);
      p := Pulled(None, At(c, pos), memo);
  }

  /** Everything a cursor yields when it is drained with nothing else touching
      the memo in between. */
  function Stream<N>(c: Cursor<N>, costAdd: (int, int) -> int, memo: Memo<N>): (s: seq<(int, Path<N>)>)
    ensures |s| <= Unread(c)
    decreases Unread(c)
  {
    var p := Pull(c, costAdd, memo);
    if p.item.None? then [] else [p.item.value] + Stream(p.rest, costAdd, p.memo)
  }

  /** The items a list iterator has not handed out yet. */
  function ItemsLeft<N>(c: Cursor<N>): seq<(int, Path<N>)>
    requires c.Items?
  {
    if c.pos < |c.items| then c.items[c.pos..] else []
  }

  /** A list iterator yields exactly its remaining items, in order. */
  lemma {:induction false} StreamOfItems<N>(c: Cursor<N>, costAdd: (int, int) -> int, memo: Memo<N>)
    requires c.Items?
    ensures Stream(c, costAdd, memo) == ItemsLeft(c)
    decreases Unread(c)
  {
    var p := Pull(c, costAdd, memo);
    if c.pos < |c.items| {
      var c' := At(c, c.pos + 1);
      assert p == Pulled(Some(c.items[c.pos]), c', memo);
      assert Stream(c, costAdd, memo) == [c.items[c.pos]] + Stream(c', costAdd, memo);
      StreamOfItems(c', costAdd, memo);
      assert c.items[c.pos..] == [c.items[c.pos]] + c.items[c.pos + 1..];
    } else {
      assert p.item.None?;
    }
  }

  /** What `_iterate` yields without pruning: every remaining neighbour, in the
      producer's order, at `cost_add(base, c)`, its path one node longer. */
  function Extensions<N>(c: Cursor<N>, costAdd: (int, int) -> int): (s: seq<(int, Path<N>)>)
    requires c.Expand?
    ensures |s| == Unread(c)
    decreases |c.neighbours| - c.pos
  {
    if c.pos < |c.neighbours| then
      [(Total(c, c.pos, costAdd), c.path + [c.neighbours[c.pos].1])] + Extensions(At(c, c.pos + 1), costAdd)
    else []
  }

  /** With memoisation off, an expansion cursor yields every remaining
      neighbour in producer order, each path extended by exactly that node,
      whatever the memo holds. (That each `next` leaves the memo unchanged is
      `PullMemo`.) */
  lemma {:induction false} StreamWithoutPruning<N>(c: Cursor<N>, costAdd: (int, int) -> int, memo: Memo<N>)
    requires c.Expand? && !c.prune
    ensures Stream(c, costAdd, memo) == Extensions(c, costAdd)
    ensures |Extensions(c, costAdd)| == Unread(c)
    ensures forall i :: 0 <= i < |Extensions(c, costAdd)| ==>
      Extensions(c, costAdd)[i] == (Total(c, c.pos + i, costAdd), c.path + [c.neighbours[c.pos + i].1])
    decreases |c.neighbours| - c.pos
  {
    StreamWithoutPruningHead(c, costAdd, memo);
    ExtensionsShape(c, costAdd);
  }

  lemma {:induction false} StreamWithoutPruningHead<N>(c: Cursor<N>, costAdd: (int, int) -> int, memo: Memo<N>)
    requires c.Expand? && !c.prune
    ensures Stream(c, costAdd, memo) == Extensions(c, costAdd)
    decreases |c.neighbours| - c.pos
  {
    var p := Pull(c, costAdd, memo);
    if c.pos < |c.neighbours| {
      var c' := At(c, c.pos + 1);
      FirstKeptStep(c, costAdd, memo);
      assert p == Pulled(Some((Total(c, c.pos, costAdd), c.path + [c.neighbours[c.pos].1])), c', memo);
      StreamWithoutPruningHead(c', costAdd, memo);
    } else {
      assert p.item.None?;
    }
  }

  /** `Extensions` lists one item per unread neighbour, in order. */
  lemma {:induction false} ExtensionsShape<N>(c: Cursor<N>, costAdd: (int, int) -> int)
    requires c.Expand?
    ensures |Extensions(c, costAdd)| == Unread(c)
    ensures forall i :: 0 <= i < |Extensions(c, costAdd)| ==>
      Extensions(c, costAdd)[i] == (Total(c, c.pos + i, costAdd), c.path + [c.neighbours[c.pos + i].1])
    decreases |c.neighbours| - c.pos
  {
    if c.pos < |c.neighbours| {
      var c' := At(c, c.pos + 1);
      ExtensionsShape(c', costAdd);
      assert c'.base == c.base && c'.path == c.path && c'.neighbours == c.neighbours;
    }
  }

  /** The per-candidate rule of `_iterate`: the candidate at the cursor's
      position is skipped if and only if the memo holds a cost for its node no
      greater than its total; otherwise it is yielded and its total recorded. */
  lemma CandidateRule<N>(c: Cursor<N>, costAdd: (int, int) -> int, memo: Memo<N>)
    requires c.Expand? && c.pos < |c.neighbours|
    ensures var total := Total(c, c.pos, costAdd);
            var node := c.neighbours[c.pos].1;
            if c.prune && node in memo && memo[node] <= total then
              Pull(c, costAdd, memo) == Pull(At(c, c.pos + 1), costAdd, memo)
            else
              Pull(c, costAdd, memo) ==
                Pulled(Some((total, c.path + [node])), At(c, c.pos + 1),
                       if c.prune then memo[node := total] else memo)
  {
  }

  /** Once a cursor has reported exhaustion it keeps doing so, and stays put. */
  lemma ExhaustedStaysExhausted<N>(c: Cursor<N>, costAdd: (int, int) -> int, memo: Memo<N>)
    requires Pull(c, costAdd, memo).item.None?
    ensures var p := Pull(c, costAdd, memo);
            Pull(p.rest, costAdd, p.memo) == p && p.memo == memo
  {
  }

  /** Advancing a cursor never removes a memo entry and never raises one: an
      entry changes only by being lowered strictly, and only for the node the
      yielded path ends in, which then holds the yielded cost. */
  lemma PullMemo<N>(c: Cursor<N>, costAdd: (int, int) -> int, memo: Memo<N>)
    ensures var p := Pull(c, costAdd, memo);
            && (c.Items? || !c.prune || p.item.None? ==> p.memo == memo)
            && (forall k :: k in memo ==> k in p.memo && p.memo[k] <= memo[k])
            && (forall k :: k in memo && p.memo[k] != memo[k] ==> p.memo[k] < memo[k])
            && (forall k :: k in p.memo && (k !in memo || p.memo[k] != memo[k]) ==>
                  p.item.Some? && |p.item.value.1| > 0 && k == Last(p.item.value.1) && p.memo[k] == p.item.value.0)
  {
    if c.Expand? {
      var j := FirstKept(c, costAdd, memo);
      if j < |c.neighbours| && c.prune {
        var node := c.neighbours[j].1;
        assert !Dominated(memo, node, Total(c, j, costAdd));
        assert Last(c.path + [node]) == node;
      }
    }
  }

  /** A cursor the memo accounts for: a list cursor with only bare start
      nodes left, or an expansion that checks and records the memo. */
  ghost predicate MemoCursor<N>(c: Cursor<N>)
  {
    match c
    case Items(items, pos) => forall i :: pos <= i < |items| ==> |items[i].1| <= 1
    case Expand(_, _, _, _, prune) => prune
  }

  /** Such a cursor stays one, and whatever it yields past the start node is
      recorded in the memo afterwards at no more than its cost. */
  lemma PullMemoCursor<N>(c: Cursor<N>, costAdd: (int, int) -> int, memo: Memo<N>)
    requires MemoCursor(c)
    ensures var p := Pull(c, costAdd, memo);
            && MemoCursor(p.rest)
            && (p.item.Some? && |p.item.value.1| > 1 ==> Dominated(p.memo, Last(p.item.value.1), p.item.value.0))
  {
    if c.Expand? {
      var j := FirstKept(c, costAdd, memo);
      if j < |c.neighbours| {
        assert Last(c.path + [c.neighbours[j].1]) == c.neighbours[j].1;
      }
    }
  }

  // ---------------------------------------------------------------------------
  // Ordering: what a cursor may still yield.

  /** Sorted by cost, ascending. */
  ghost predicate Ascending<T>(s: seq<(int, T)>)
  {
    forall i, j :: 0 <= i < j < |s| ==> s[i].0 <= s[j].0
  }

  /** Everything the cursor may still yield costs at least `lo`, and the
      candidates come in ascending cost order. */
  ghost predicate YieldsFrom<N>(c: Cursor<N>, lo: int, costAdd: (int, int) -> int)
  {
    match c
    case Items(items, pos) =>
      && (forall i :: pos <= i < |items| ==> lo <= items[i].0)
      && (forall i, j :: pos <= i < j < |items| ==> items[i].0 <= items[j].0)
    case Expand(base, _, nbrs, pos, _) =>
      && (forall i :: pos <= i < |nbrs| ==> lo <= costAdd(base, nbrs[i].0))
      && (forall i, j :: pos <= i < j < |nbrs| ==> costAdd(base, nbrs[i].0) <= costAdd(base, nbrs[j].0))
  }

  /** An item pulled from an ascending cursor costs at least the cursor's
      bound, and becomes the bound for what the cursor yields next. */
  lemma PullAscending<N>(c: Cursor<N>, lo: int, costAdd: (int, int) -> int, memo: Memo<N>)
    requires YieldsFrom(c, lo, costAdd)
    ensures var p := Pull(c, costAdd, memo);
            p.item.Some? ==> lo <= p.item.value.0 && YieldsFrom(p.rest, p.item.value.0, costAdd)
  {
    if c.Expand? {
      var j := FirstKept(c, costAdd, memo);
      if j < |c.neighbours| {
        var p := Pull(c, costAdd, memo);
        assert p.rest.pos == j + 1;
        assert p.item.value.0 == costAdd(c.base, c.neighbours[j].0);
      }
    }
  }

  /** Items and pruned expansions alike, draining an ascending cursor with
      nothing else in between gives an ascending stream. */
  lemma {:induction false} StreamAscending<N>(c: Cursor<N>, lo: int, costAdd: (int, int) -> int, memo: Memo<N>)
    requires YieldsFrom(c, lo, costAdd)
    ensures Ascending(Stream(c, costAdd, memo))
    ensures forall i :: 0 <= i < |Stream(c, costAdd, memo)| ==> lo <= Stream(c, costAdd, memo)[i].0
    decreases Unread(c)
  {
    var p := Pull(c, costAdd, memo);
    if p.item.Some? {
      PullAscending(c, lo, costAdd, memo);
      StreamAscending(p.rest, p.item.value.0, costAdd, p.memo);
    }
  }

  /** The producer yields every node's neighbours in ascending cost order. */
  ghost predicate SortedProducer<N(!new)>(neighbours: N -> seq<(int, N)>)
  {
    forall n, i, j :: 0 <= i < j < |neighbours(n)| ==> neighbours(n)[i].0 <= neighbours(n)[j].0
  }

  /** Adding a larger increment never gives a smaller total. */
  ghost predicate MonotoneAdd(costAdd: (int, int) -> int)
  {
    forall a, b, b' :: b <= b' ==> costAdd(a, b) <= costAdd(a, b')
  }

  /** No edge the producer offers lowers the accumulated cost. */
  ghost predicate NoShortcut<N(!new)>(neighbours: N -> seq<(int, N)>, costAdd: (int, int) -> int)
  {
    forall a, n, i :: 0 <= i < |neighbours(n)| ==> a <= costAdd(a, neighbours(n)[i].0)
  }

  /** What the ordering results assume: sorted neighbours, the one condition
      the caller is documented to meet, plus two the model adds because
      output in ascending cost fails without them: totals that grow with the
      increment, and no edge that lowers the accumulated cost. */
  ghost predicate WellBehaved<N(!new)>(neighbours: N -> seq<(int, N)>, costAdd: (int, int) -> int)
  {
    SortedProducer(neighbours) && MonotoneAdd(costAdd) && NoShortcut(neighbours, costAdd)
  }

  /** Under the producer's contract, a fresh expansion of a path of cost
      `cost` yields ascending totals, none below `cost`. */
  lemma ExpansionAscending<N(!new)>(neighbours: N -> seq<(int, N)>, costAdd: (int, int) -> int,
                              cost: int, path: Path<N>, prune: bool)
    requires |path| > 0
    requires WellBehaved(neighbours, costAdd)
    ensures YieldsFrom(Expand(cost, path, neighbours(Last(path)), 0, prune), cost, costAdd)
  {
    var nbrs := neighbours(Last(path));
    forall i, j | 0 <= i < j < |nbrs|
      ensures costAdd(cost, nbrs[i].0) <= costAdd(cost, nbrs[j].0)
    {
      assert nbrs[i].0 <= nbrs[j].0;
    }
  }

  // ---------------------------------------------------------------------------
  // Paths: every path a cursor yields starts at the search's initial node.

  ghost predicate RootedPath<N>(path: Path<N>, root: N)
  {
    |path| > 0 && path[0] == root
  }

  ghost predicate RootedCursor<N>(c: Cursor<N>, root: N)
  {
    match c
    case Items(items, _) => forall i :: 0 <= i < |items| ==> RootedPath(items[i].1, root)
    case Expand(_, path, _, _, _) => RootedPath(path, root)
  }

  /** A rooted cursor yields rooted paths and stays rooted; an expansion
      yields its path extended by one node. */
  lemma PullRooted<N>(c: Cursor<N>, root: N, costAdd: (int, int) -> int, memo: Memo<N>)
    requires RootedCursor(c, root)
    ensures var p := Pull(c, costAdd, memo);
            && RootedCursor(p.rest, root)
            && (p.item.Some? ==> RootedPath(p.item.value.1, root))
            && (p.item.Some? && c.Expand? ==> p.item.value.1[..|c.path|] == c.path && |p.item.value.1| == |c.path| + 1)
            && p.rest.Expand? == c.Expand?
            && (c.Expand? ==> p.rest.prune == c.prune)
  {
    var p := Pull(c, costAdd, memo);
    if c.Items? && p.item.Some? {
      assert p.item.value == c.items[c.pos];
    }
  }

  // ---------------------------------------------------------------------------
  // Walks: every path a cursor yields follows the producer's edges, at the
  // cost those edges add up to.

  /** The search graph as the caller describes it: the initial node and cost,
      the producer of each node's `(increment, neighbour)` list, and how an
      increment is added to an accumulated cost. */
  datatype Graph<!N> = Graph(root: N, rootCost: int, neighbours: N -> seq<(int, N)>, costAdd: (int, int) -> int)

  /** `path` starts at the root and each next node is one the producer offers
      for the node before it; `cost` is the root's cost with the increments of
      those edges added one by one. */
  ghost predicate Walk<N>(g: Graph<N>, cost: int, path: Path<N>)
    decreases |path|
  {
    if |path| <= 1 then path == [g.root] && cost == g.rootCost
    else
      var prefix := path[..|path| - 1];
      var nbrs := g.neighbours(Last(prefix));
      exists base, i :: Walk(g, base, prefix) && 0 <= i < |nbrs| && nbrs[i].1 == Last(path)
                     && cost == g.costAdd(base, nbrs[i].0)
  }

  /** Everything the cursor can still produce is a walk: a list iterator holds
      walks, and an expansion extends a walk by the producer's list for its
      last node. */
  ghost predicate WalkCursor<N>(g: Graph<N>, c: Cursor<N>)
  {
    match c
    case Items(items, _) => forall i :: 0 <= i < |items| ==> Walk(g, items[i].0, items[i].1)
    case Expand(base, path, nbrs, _, _) => |path| > 0 && Walk(g, base, path) && nbrs == g.neighbours(Last(path))
  }

  /** A walk extended by one edge the producer offers is a walk. */
  lemma WalkExtend<N>(g: Graph<N>, base: int, path: Path<N>, i: nat)
    requires |path| > 0 && Walk(g, base, path) && i < |g.neighbours(Last(path))|
    ensures var e := g.neighbours(Last(path))[i];
            Walk(g, g.costAdd(base, e.0), path + [e.1])
  {
    var e := g.neighbours(Last(path))[i];
    var q := path + [e.1];
    assert q[..|q| - 1] == path;
  }

  /** A cursor of walks yields a walk and stays a cursor of walks. */
  lemma PullWalks<N>(g: Graph<N>, c: Cursor<N>, memo: Memo<N>)
    requires WalkCursor(g, c)
    ensures var p := Pull(c, g.costAdd, memo);
            && WalkCursor(g, p.rest)
            && (p.item.Some? ==> Walk(g, p.item.value.0, p.item.value.1))
  {
    var p := Pull(c, g.costAdd, memo);
    if c.Items? && p.item.Some? {
      assert p.item.value == c.items[c.pos];
    } else if c.Expand? && p.item.Some? {
      WalkExtend(g, c.base, c.path, FirstKept(c, g.costAdd, memo));
    }
  }

  // ---------------------------------------------------------------------------
  // Edge choices: a walk spelled out as the position, in the producer's list,
  // of the edge taken at each node.

  /** The `i`-th entry of the producer's list for the last node of `path`,
      taken from `(cost, path)`; `None` when the list is shorter. */
  function Edge<N>(g: Graph<N>, cost: int, path: Path<N>, i: nat): (r: Option<(int, Path<N>)>)
    requires |path| > 0
    ensures r.Some? <==> i < |g.neighbours(Last(path))|
    ensures r.Some? ==> |r.value.1| == |path| + 1 && r.value.1[..|path|] == path
  {
    var nbrs := g.neighbours(Last(path));
    if i < |nbrs| then Some((g.costAdd(cost, nbrs[i].0), path + [nbrs[i].1])) else None
  }

  /** Where the edge choices `steps` lead from `(cost, path)`. */
  function Follow<N>(g: Graph<N>, cost: int, path: Path<N>, steps: seq<nat>): (r: Option<(int, Path<N>)>)
    requires |path| > 0
    ensures r.Some? ==> |r.value.1| == |path| + |steps|
    decreases |steps|
  {
    if steps == [] then Some((cost, path))
    else
      match Edge(g, cost, path, steps[0])
      case None => None
      case Some(next) => Follow(g, next.0, next.1, steps[1..])
  }

  /** Where the edge choices `steps` lead from the root. */
  function FromRoot<N>(g: Graph<N>, steps: seq<nat>): (r: Option<(int, Path<N>)>)
    ensures r.Some? ==> |r.value.1| == 1 + |steps|
  {
    Follow(g, g.rootCost, [g.root], steps)
  }

  /** The edge choices `steps` lead from the root to a solution node. */
  ghost predicate Solving<N>(g: Graph<N>, isSolution: N -> bool, steps: seq<nat>)
  {
    FromRoot(g, steps).Some? && isSolution(Last(FromRoot(g, steps).value.1))
  }

  /** One more choice at the end is one more edge from where the others lead. */
  lemma {:induction false} FollowAppend<N>(g: Graph<N>, cost: int, path: Path<N>, steps: seq<nat>, i: nat)
    requires |path| > 0
    ensures var r := Follow(g, cost, path, steps);
            Follow(g, cost, path, steps + [i]) == if r.Some? then Edge(g, r.value.0, r.value.1, i) else None
    decreases |steps|
  {
    if steps == [] {
      assert ([] + [i])[1..] == [];
    } else {
      assert (steps + [i])[0] == steps[0] && (steps + [i])[1..] == steps[1..] + [i];
      var e := Edge(g, cost, path, steps[0]);
      if e.Some? {
        FollowAppend(g, e.value.0, e.value.1, steps[1..], i);
      }
    }
  }

  /** Following a choice sequence is following its first `k` choices and
      then the rest. */
  lemma {:induction false} FollowSplit<N>(g: Graph<N>, cost: int, path: Path<N>, steps: seq<nat>, k: nat)
    requires |path| > 0 && k <= |steps|
    ensures var r := Follow(g, cost, path, steps[..k]);
            Follow(g, cost, path, steps) == if r.Some? then Follow(g, r.value.0, r.value.1, steps[k..]) else None
    decreases k
  {
    if k == 0 {
      assert steps[..0] == [] && steps[0..] == steps;
    } else {
      assert steps[..k][0] == steps[0] && steps[..k][1..] == steps[1..][..k - 1];
      assert steps[1..][k - 1..] == steps[k..];
      var e := Edge(g, cost, path, steps[0]);
      if e.Some? {
        FollowSplit(g, e.value.0, e.value.1, steps[1..], k - 1);
      }
    }
  }

  /** With no edge lowering the accumulated cost, following edges never
      lowers it either. */
  lemma {:induction false} FollowGrows<N(!new)>(g: Graph<N>, cost: int, path: Path<N>, steps: seq<nat>)
    requires |path| > 0 && NoShortcut(g.neighbours, g.costAdd)
    ensures Follow(g, cost, path, steps).Some? ==> cost <= Follow(g, cost, path, steps).value.0
    decreases |steps|
  {
    if steps != [] {
      var e := Edge(g, cost, path, steps[0]);
      if e.Some? {
        FollowGrows(g, e.value.0, e.value.1, steps[1..]);
      }
    }
  }

  /** Every walk is where some choice sequence leads from the root. */
  lemma {:induction false} WalkFollow<N>(g: Graph<N>, cost: int, path: Path<N>)
    requires Walk(g, cost, path)
    ensures exists steps :: FromRoot(g, steps) == Some((cost, path))
    decreases |path|
  {
    if |path| <= 1 {
      assert FromRoot(g, []) == Some((cost, path));
    } else {
      var prefix := path[..|path| - 1];
      var nbrs := g.neighbours(Last(prefix));
      var base: int, i: nat :| Walk(g, base, prefix) && i < |nbrs| && nbrs[i].1 == Last(path)
                     && cost == g.costAdd(base, nbrs[i].0);
      WalkFollow(g, base, prefix);
      var steps :| FromRoot(g, steps) == Some((base, prefix));
      FollowAppend(g, g.rootCost, [g.root], steps, i);
      assert prefix + [nbrs[i].1] == path;
      assert FromRoot(g, steps + [i]) == Some((cost, path));
    }
  }

  // ---------------------------------------------------------------------------
  // What a cursor still has to offer.

  /** `x` is one of the candidates the cursor has not reached yet, as it
      would come out with nothing pruned. */
  ghost predicate Offers<N>(c: Cursor<N>, costAdd: (int, int) -> int, x: (int, Path<N>))
  {
    match c
    case Items(items, pos) => exists j :: pos <= j < |items| && items[j] == x
    case Expand(base, path, nbrs, pos, _) =>
      exists j :: pos <= j < |nbrs| && (costAdd(base, nbrs[j].0), path + [nbrs[j].1]) == x
  }

  /** A fresh expansion offers every edge out of its path's last node. */
  lemma ExpansionOffers<N>(g: Graph<N>, cost: int, path: Path<N>, prune: bool, i: nat)
    requires |path| > 0 && Edge(g, cost, path, i).Some?
    ensures Offers(Expand(cost, path, g.neighbours(Last(path)), 0, prune), g.costAdd, Edge(g, cost, path, i).value)
  {
  }

  /** Without pruning, `next` hands out the first candidate still offered,
      and the rest stay offered. */
  lemma PullOffers<N>(c: Cursor<N>, costAdd: (int, int) -> int, memo: Memo<N>, x: (int, Path<N>))
    requires (c.Expand? ==> !c.prune) && Offers(c, costAdd, x)
    ensures var p := Pull(c, costAdd, memo);
            p.item.Some? && (p.item.value == x || Offers(p.rest, costAdd, x))
  {
    if c.Expand? {
      var j := FirstKept(c, costAdd, memo);
      assert j == c.pos;
    }
  }

  /** Whatever an ascending cursor offers costs at least its bound. */
  lemma OffersAbove<N>(c: Cursor<N>, lo: int, costAdd: (int, int) -> int, x: (int, Path<N>))
    requires YieldsFrom(c, lo, costAdd) && Offers(c, costAdd, x)
    ensures lo <= x.0
  {
  }
}
