/**
 * `best_first_search`, current version: pop the cheapest path; stop at the
 * iteration cap or when the heap runs dry; yield a path that ends in a
 * solution, and otherwise push a lazy expansion of it whose candidates are
 * checked against the `node -> best cost` memo as they are produced.
 *
 * Python's generator is modelled as a state machine, one `Step` per turn of
 * the `for n_iter in itertools.count()` loop. The generator is lazy and its
 * caller may stop pulling at any time, so `Run` and the method take `fuel`,
 * the number of turns the caller lets happen; a run that ends with fuel
 * left ends because the search itself returned.
 */
module Search {
  import opened Cursors
  import opened LazyHeap

  /** The arguments of `best_first_search` (`n_thread` aside: see `LazyHeap.New`). */
  datatype Problem<!N> = Problem(
    initialCost: int,
    initialNode: N,
    neighbours: N -> seq<(int, N)>,
    isSolution: N -> bool,
    costAdd: (int, int) -> int,
    memoize: bool,
    maxIters: Option<int>)

  /** `Running` while the generator has not returned; `Capped` and
      `Exhausted` are its two `return`s. */
  datatype Status = Running | Capped | Exhausted

  /** A yielded `(cost, n_iter, nodes)`. */
  datatype Found<N> = Found(cost: int, iter: nat, path: Path<N>)

  /** The generator's locals between two turns of its loop. */
  datatype State<N> = State(frontier: Frontier<N>, memo: Memo<N>, n: nat, found: seq<Found<N>>, status: Status)

  /** The seed `iter([(initial_cost, (initial_node,))])`. */
  function Seed<N>(p: Problem<N>): Cursor<N>
  {
    Items([(p.initialCost, [p.initialNode])], 0)
  }

  /** `_iterate(cost, nodes)`. */
  function Expansion<N>(p: Problem<N>, cost: int, path: Path<N>): Cursor<N>
    requires |path| > 0
  {
    Expand(cost, path, p.neighbours(Last(path)), 0, p.memoize)
  }

  /** The graph the producer describes, rooted at the initial node. */
  function GraphOf<N>(p: Problem<N>): Graph<N>
  {
    Graph(p.initialNode, p.initialCost, p.neighbours, p.costAdd)
  }

  /** `n_max_iters is not None and n_iter >= n_max_iters`. */
  predicate HitsCap<N>(p: Problem<N>, n: int)
  {
    p.maxIters.Some? && n >= p.maxIters.value
  }

  /** A heap holding only the seed, an empty memo, nothing yielded yet. */
  ghost function Start<N>(p: Problem<N>): (s: State<N>)
    ensures |s.frontier.entries| == 1 && s.memo == map[] && s.n == 0 && s.found == [] && s.status == Running
  {
    var (f, m) := AfterPush(Empty(), Seed(p), p.costAdd, map[]);
    State(f, m, 0, [], Running)
  }

  /** One turn of the loop. The heap is popped first and only then is the
      cap checked, so the turn that hits the cap still advances an iterator. */
  ghost function Step<N>(p: Problem<N>, s: State<N>): (s': State<N>)
    requires Turnable(p, s)
    ensures s'.n == s.n + (if s'.status == Running then 1 else 0)
    ensures s.found <= s'.found && |s'.found| <= |s.found| + 1
  {
    PopRooted(s.frontier, p.initialNode, p.memoize, p.costAdd, s.memo);
    Resume(p, s, AfterPop(s.frontier, p.costAdd, s.memo))
  }

  /** The rest of the turn, given what the pop returned and left behind. */
  ghost function Resume<N>(p: Problem<N>, s: State<N>, r: Popped<N>): (s': State<N>)
    requires r.item.Some? ==> |r.item.value.1| > 0
    ensures s'.n == s.n + (if s'.status == Running then 1 else 0)
    ensures s.found <= s'.found && |s'.found| <= |s.found| + 1
    ensures s'.status == Capped <==> HitsCap(p, s.n)
  {
    if HitsCap(p, s.n) then State(r.frontier, r.memo, s.n, s.found, Capped)
    else if r.item.None? then State(r.frontier, r.memo, s.n, s.found, Exhausted)
    else
      var (cost, path) := r.item.value;
      if p.isSolution(Last(path)) then
        State(r.frontier, r.memo, s.n + 1, s.found + [Found(cost, s.n, path)], Running)
      else
        var (f, m) := AfterPush(r.frontier, Expansion(p, cost, path), p.costAdd, r.memo);
        State(f, m, s.n + 1, s.found, Running)
  }

  /** A state a turn can start from: the generator is running, and its heap
      is rooted and uniform in its pruning flag (every reachable state is,
      see `RunInv`). */
  ghost predicate Turnable<N>(p: Problem<N>, s: State<N>)
  {
    s.status == Running && Rooted(s.frontier, p.initialNode) && Pruning(s.frontier, p.memoize)
  }

  /** One more turn of the loop if the generator is still running, nothing if
      it has returned. (Every state a run reaches has a rooted heap whose
      expansions all share the `memoize` flag, see `RunInv`, so the guard only
      makes the function total.) */
  ghost function Advance<N>(p: Problem<N>, s: State<N>): State<N>
  {
    if Turnable(p, s) then Step(p, s)
    else s
  }

  /** The generator run for `fuel` turns of its loop. */
  ghost function Run<N>(p: Problem<N>, s: State<N>, fuel: nat): (r: State<N>)
    ensures s.n <= r.n <= s.n + fuel
    ensures s.found <= r.found && |r.found| <= |s.found| + fuel
    decreases fuel
  {
    if fuel == 0 then s else Advance(p, Run(p, s, fuel - 1))
  }

  // ---------------------------------------------------------------------------
  // The invariant of the loop.

  /** The yielded path solves the problem: it starts at the initial node and
      ends in a solution node. */
  ghost predicate Solves<N>(p: Problem<N>, path: Path<N>)
  {
    RootedPath(path, p.initialNode) && p.isSolution(Last(path))
  }

  /** What has been yielded: solutions only, at strictly increasing iteration
      numbers below the current one and below the cap. */
  ghost predicate FoundOk<N>(p: Problem<N>, s: State<N>)
  {
    && (forall i :: 0 <= i < |s.found| ==>
          Solves(p, s.found[i].path) && s.found[i].iter < s.n && !HitsCap(p, s.found[i].iter))
    && (forall i, j :: 0 <= i < j < |s.found| ==> s.found[i].iter < s.found[j].iter)
  }

  ghost predicate AscendingFound<N>(found: seq<Found<N>>)
  {
    forall i, j :: 0 <= i < j < |found| ==> found[i].cost <= found[j].cost
  }

  /** The heap is ordered, what has been yielded is ascending, and nothing
      in the heap undercuts the last solution. */
  ghost predicate OrderOk<N>(p: Problem<N>, s: State<N>)
  {
    && Ordered(s.frontier, p.costAdd)
    && AscendingFound(s.found)
    && (|s.found| > 0 ==> Floor(s.frontier, s.found[|s.found| - 1].cost))
  }

  /** Everything in the heap and everything yielded is a walk of the graph
      at its own cost. */
  ghost predicate WalkOk<N>(p: Problem<N>, s: State<N>)
  {
    && Walks(s.frontier, GraphOf(p))
    && (forall i :: 0 <= i < |s.found| ==> Walk(GraphOf(p), s.found[i].cost, s.found[i].path))
  }

  /** With memoisation on, the memo has seen everything in the heap and
      everything yielded: each path past the initial node has its last node
      recorded at no more than its cost. */
  ghost predicate MemoOk<N>(p: Problem<N>, s: State<N>)
  {
    p.memoize ==>
      && Memoised(s.frontier, s.memo)
      && (forall i :: 0 <= i < |s.found| && |s.found[i].path| > 1 ==>
            Dominated(s.memo, Last(s.found[i].path), s.found[i].cost))
  }

  ghost predicate Inv<N(!new)>(p: Problem<N>, s: State<N>)
  {
    && WalkOk(p, s)
    && MemoOk(p, s)
    && WellFormed(s.frontier)
    && Rooted(s.frontier, p.initialNode)
    && Pruning(s.frontier, p.memoize)
    && (!p.memoize ==> s.memo == map[])
    && FoundOk(p, s)
    && (WellBehaved(p.neighbours, p.costAdd) ==> OrderOk(p, s))
  }

  /** The seed state satisfies the invariant; it is one entry, the initial
      path at the initial cost, and the memo is empty, so it does not hold
      the initial node. */
  lemma StartInv<N(!new)>(p: Problem<N>)
    ensures Inv(p, Start(p))
    ensures Start(p).frontier.entries == [Entry(p.initialCost, 0, [p.initialNode], Items([(p.initialCost, [p.initialNode])], 1))]
    ensures Start(p).memo == map[] && p.initialNode !in Start(p).memo
  {
    var s := Start(p);
    assert s.frontier.entries == [Entry(p.initialCost, 0, [p.initialNode], Items([(p.initialCost, [p.initialNode])], 1))];
    assert Memoised(s.frontier, s.memo);
  }

  lemma StepStructure<N>(p: Problem<N>, s: State<N>)
    requires Turnable(p, s) && WellFormed(s.frontier) && (!p.memoize ==> s.memo == map[])
    ensures var s' := Step(p, s);
            && WellFormed(s'.frontier) && Rooted(s'.frontier, p.initialNode)
            && Pruning(s'.frontier, p.memoize) && (!p.memoize ==> s'.memo == map[])
  {
    var r := AfterPop(s.frontier, p.costAdd, s.memo);
    PopRooted(s.frontier, p.initialNode, p.memoize, p.costAdd, s.memo);
    WellFormedKept(s.frontier, Seed(p), p.costAdd, s.memo);
    if !p.memoize {
      MemoUntouched(s.frontier, Seed(p), p.costAdd, s.memo);
    }
    if !HitsCap(p, s.n) && r.item.Some? {
      var (cost, path) := r.item.value;
      if !p.isSolution(Last(path)) {
        var c := Expansion(p, cost, path);
        WellFormedKept(r.frontier, c, p.costAdd, r.memo);
        PushRooted(r.frontier, c, p.initialNode, p.memoize, p.costAdd, r.memo);
        if !p.memoize {
          MemoUntouched(r.frontier, c, p.costAdd, r.memo);
        }
      }
    }
  }

  lemma StepFound<N>(p: Problem<N>, s: State<N>)
    requires Turnable(p, s) && FoundOk(p, s)
    ensures FoundOk(p, Step(p, s))
  {
    PopRooted(s.frontier, p.initialNode, p.memoize, p.costAdd, s.memo);
  }

  /** A turn pops a walk and pushes the expansion of a walk, so both the
      heap and what has been yielded stay walks. */
  lemma StepWalks<N>(p: Problem<N>, s: State<N>)
    requires Turnable(p, s) && WalkOk(p, s)
    ensures WalkOk(p, Step(p, s))
  {
    var g := GraphOf(p);
    var r := AfterPop(s.frontier, p.costAdd, s.memo);
    PopRooted(s.frontier, p.initialNode, p.memoize, p.costAdd, s.memo);
    PopWalks(s.frontier, g, s.memo);
    if !HitsCap(p, s.n) && r.item.Some? {
      var (cost, path) := r.item.value;
      if !p.isSolution(Last(path)) {
        PushWalks(r.frontier, Expansion(p, cost, path), g, r.memo);
      }
    }
  }

  /** Pushing the expansion of a popped path keeps the heap ordered, with
      nothing below the popped cost. */
  lemma ExpansionOrder<N(!new)>(p: Problem<N>, f: Frontier<N>, cost: int, path: Path<N>, memo: Memo<N>)
    requires WellBehaved(p.neighbours, p.costAdd) && |path| > 0 && Ordered(f, p.costAdd) && Floor(f, cost)
    ensures var g := AfterPush(f, Expansion(p, cost, path), p.costAdd, memo).0;
            Ordered(g, p.costAdd) && Floor(g, cost)
  {
    ExpansionAscending(p.neighbours, p.costAdd, cost, path, p.memoize);
    PushOrdered(f, Expansion(p, cost, path), cost, p.costAdd, memo);
  }

  /** The pop of a turn keeps the heap ordered and comes out no cheaper than
      the last solution yielded. */
  lemma PopOrder<N(!new)>(p: Problem<N>, s: State<N>)
    requires OrderOk(p, s)
    ensures var r := AfterPop(s.frontier, p.costAdd, s.memo);
            && Ordered(r.frontier, p.costAdd)
            && (r.item.None? ==> r.frontier == s.frontier)
            && (r.item.Some? ==>
                  && Floor(r.frontier, r.item.value.0)
                  && (|s.found| > 0 ==> s.found[|s.found| - 1].cost <= r.item.value.0))
  {
    if s.frontier.entries != [] {
      var c := AfterPop(s.frontier, p.costAdd, s.memo).item.value.0;
      PopFloor(s.frontier, p.costAdd, s.memo);
      var lo := if |s.found| > 0 then s.found[|s.found| - 1].cost else c;
      PopOrdered(s.frontier, lo, p.costAdd, s.memo);
    }
  }

  lemma ResumeOrder<N(!new)>(p: Problem<N>, s: State<N>, r: Popped<N>)
    requires WellBehaved(p.neighbours, p.costAdd) && AscendingFound(s.found) && Ordered(r.frontier, p.costAdd)
    requires r.item.None? ==> |s.found| > 0 ==> Floor(r.frontier, s.found[|s.found| - 1].cost)
    requires r.item.Some? ==>
               && |r.item.value.1| > 0 && Floor(r.frontier, r.item.value.0)
               && (|s.found| > 0 ==> s.found[|s.found| - 1].cost <= r.item.value.0)
    ensures OrderOk(p, Resume(p, s, r))
  {
    if r.item.Some? && !HitsCap(p, s.n) && !p.isSolution(Last(r.item.value.1)) {
      ExpansionOrder(p, r.frontier, r.item.value.0, r.item.value.1, r.memo);
    }
  }

  lemma StepOrder<N(!new)>(p: Problem<N>, s: State<N>)
    requires Turnable(p, s) && WellBehaved(p.neighbours, p.costAdd) && OrderOk(p, s)
    ensures OrderOk(p, Step(p, s))
  {
    PopRooted(s.frontier, p.initialNode, p.memoize, p.costAdd, s.memo);
    PopOrder(p, s);
    ResumeOrder(p, s, AfterPop(s.frontier, p.costAdd, s.memo));
  }

  /** A turn keeps the memo covering the heap and what has been yielded:
      the pop and the push only lower the memo, and each records what it
      hands out. */
  lemma StepMemoOk<N>(p: Problem<N>, s: State<N>)
    requires Turnable(p, s) && MemoOk(p, s)
    ensures MemoOk(p, Step(p, s))
  {
    if p.memoize {
      var r := AfterPop(s.frontier, p.costAdd, s.memo);
      PopRooted(s.frontier, p.initialNode, p.memoize, p.costAdd, s.memo);
      PopMemoised(s.frontier, p.costAdd, s.memo);
      if !HitsCap(p, s.n) && r.item.Some? && !p.isSolution(Last(r.item.value.1)) {
        PushMemoised(r.frontier, Expansion(p, r.item.value.0, r.item.value.1), p.costAdd, r.memo);
      }
    }
  }

  lemma StepKeepsInv<N(!new)>(p: Problem<N>, s: State<N>)
    requires Inv(p, s) && s.status == Running
    ensures Inv(p, Step(p, s))
  {
    StepStructure(p, s);
    StepFound(p, s);
    StepWalks(p, s);
    StepMemoOk(p, s);
    if WellBehaved(p.neighbours, p.costAdd) {
      StepOrder(p, s);
    }
  }

  // ---------------------------------------------------------------------------
  // One turn at a time.

  /** A turn never takes back an iteration number or a yielded item. */
  lemma StepGrows<N(!new)>(p: Problem<N>, s: State<N>)
    requires Inv(p, s) && s.status == Running
    ensures Extends(s, Step(p, s))
  {
  }

  /** The rules of one turn: the search returns at the cap, checked after the
      pop, or else when the pop finds the heap empty, and it returns for no
      other reason. Every other turn consumes exactly one iteration number; a
      solution is yielded under that number and not expanded, anything else
      gets exactly one expansion pushed and yields nothing. */
  lemma StepRules<N(!new)>(p: Problem<N>, s: State<N>)
    requires Inv(p, s) && s.status == Running
    ensures var s' := Step(p, s);
            var r := AfterPop(s.frontier, p.costAdd, s.memo);
            && (s'.status == Capped <==> HitsCap(p, s.n))
            && (s'.status == Exhausted <==> !HitsCap(p, s.n) && s.frontier.entries == [])
            && (s'.status != Running ==>
                  s'.found == s.found && s'.n == s.n && s'.frontier == r.frontier && s'.memo == r.memo)
            && (s'.status == Running ==>
                  && r.item.Some? && |r.item.value.1| > 0 && s'.n == s.n + 1
                  && var (cost, path) := r.item.value;
                     if p.isSolution(Last(path)) then
                       s'.found == s.found + [Found(cost, s.n, path)] && s'.frontier == r.frontier && s'.memo == r.memo
                     else
                       s'.found == s.found
                       && (s'.frontier, s'.memo) == AfterPush(r.frontier, Expansion(p, cost, path), p.costAdd, r.memo))
  {
    PopRooted(s.frontier, p.initialNode, p.memoize, p.costAdd, s.memo);
    PopReturnsLeast(s.frontier, p.costAdd, s.memo);
  }

  /** Memo entries are never removed, and a turn can only lower them. */
  lemma StepMemo<N(!new)>(p: Problem<N>, s: State<N>)
    requires Inv(p, s) && s.status == Running
    ensures var s' := Step(p, s);
            && (forall k :: k in s.memo ==> k in s'.memo && s'.memo[k] <= s.memo[k])
            && (forall k :: k in s.memo && s'.memo[k] != s.memo[k] ==> s'.memo[k] < s.memo[k])
  {
    var r := AfterPop(s.frontier, p.costAdd, s.memo);
    PopRooted(s.frontier, p.initialNode, p.memoize, p.costAdd, s.memo);
    if s.frontier.entries != [] {
      PullMemo(s.frontier.entries[MinPos(s.frontier.entries)].rest, p.costAdd, s.memo);
    }
    if !HitsCap(p, s.n) && r.item.Some? && !p.isSolution(Last(r.item.value.1)) {
      PullMemo(Expansion(p, r.item.value.0, r.item.value.1), p.costAdd, r.memo);
    }
  }

  // ---------------------------------------------------------------------------
  // Whole runs.

  /** `r` comes later in the same run as `s`: no iteration number and no
      yielded item is taken back, and a search that has returned stays so. */
  ghost predicate Extends<N>(s: State<N>, r: State<N>)
  {
    && s.n <= r.n && |s.found| <= |r.found| && r.found[..|s.found|] == s.found
    && (r.status == Running ==> s.status == Running)
  }

  lemma ExtendsTrans<N>(a: State<N>, b: State<N>, c: State<N>)
    requires Extends(a, b) && Extends(b, c)
    ensures Extends(a, c)
  {
    assert c.found[..|a.found|] == c.found[..|b.found|][..|a.found|];
  }

  /** One more turn keeps the invariant and extends the run. */
  lemma AdvanceInv<N(!new)>(p: Problem<N>, s: State<N>)
    requires Inv(p, s)
    ensures Inv(p, Advance(p, s)) && Extends(s, Advance(p, s))
  {
    if s.status == Running {
      StepKeepsInv(p, s);
      StepGrows(p, s);
    }
  }

  /** Every run keeps the invariant, never takes back an iteration number
      or a yielded item, and a search that has returned stays returned. */
  lemma {:induction false} RunInv<N(!new)>(p: Problem<N>, s: State<N>, fuel: nat)
    requires Inv(p, s)
    ensures Inv(p, Run(p, s, fuel)) && Extends(s, Run(p, s, fuel))
    decreases fuel
  {
    if fuel == 0 {
      assert Run(p, s, fuel) == s;
    } else {
      var q := Run(p, s, fuel - 1);
      var r := Advance(p, q);
      assert Run(p, s, fuel) == r;
      RunInv(p, s, fuel - 1);
      AdvanceInv(p, q);
      ExtendsTrans(s, q, r);
    }
  }

  /** A run that has returned takes no further turn. */
  lemma RunHalted<N>(p: Problem<N>, s: State<N>, fuel: nat)
    requires Run(p, s, fuel).status != Running
    ensures Run(p, s, fuel + 1) == Run(p, s, fuel)
  {
  }

  /** Once the search has returned, more fuel changes nothing. */
  lemma {:induction false} RunStays<N>(p: Problem<N>, s: State<N>, fuel: nat, more: nat)
    requires Run(p, s, fuel).status != Running && fuel <= more
    ensures Run(p, s, more) == Run(p, s, fuel)
    decreases more
  {
    if fuel < more {
      RunStays(p, s, fuel, more - 1);
      RunHalted(p, s, more - 1);
    }
  }

  lemma {:induction false} IncreasingBelowCap(found: seq<nat>, k: int)
    requires forall i :: 0 <= i < |found| ==> found[i] < k
    requires forall i, j :: 0 <= i < j < |found| ==> found[i] < found[j]
    ensures |found| <= if k < 0 then 0 else k
    decreases |found|
  {
    if |found| > 0 {
      var last := found[|found| - 1];
      var init := found[..|found| - 1];
      IncreasingBelowCap(init, last);
    }
  }

  /** What every run yields: solutions, each path a walk of the graph from
      the initial node, at the cost of that walk, ending in a solution node;
      strictly increasing iteration numbers; with `n_max_iters = k`, only
      iteration numbers below `k`, so at most `k` solutions; and, under
      `WellBehaved`, non-decreasing costs. */
  lemma RunYields<N(!new)>(p: Problem<N>, fuel: nat)
    ensures var found := Run(p, Start(p), fuel).found;
            && (forall i :: 0 <= i < |found| ==> Solves(p, found[i].path))
            && (forall i :: 0 <= i < |found| ==> Walk(GraphOf(p), found[i].cost, found[i].path))
            && (forall i, j :: 0 <= i < j < |found| ==> found[i].iter < found[j].iter)
            && (p.maxIters.Some? ==>
                  (forall i :: 0 <= i < |found| ==> found[i].iter < p.maxIters.value)
                  && |found| <= if p.maxIters.value < 0 then 0 else p.maxIters.value)
            && (WellBehaved(p.neighbours, p.costAdd) ==> AscendingFound(found))
  {
    StartInv(p);
    RunInv(p, Start(p), fuel);
    InvYields(p, Run(p, Start(p), fuel));
  }

  /** What has been yielded in a state of the invariant (see `RunYields`). */
  lemma InvYields<N(!new)>(p: Problem<N>, s: State<N>)
    requires Inv(p, s)
    ensures var found := s.found;
            && (forall i :: 0 <= i < |found| ==> Solves(p, found[i].path))
            && (forall i :: 0 <= i < |found| ==> Walk(GraphOf(p), found[i].cost, found[i].path))
            && (forall i, j :: 0 <= i < j < |found| ==> found[i].iter < found[j].iter)
            && (p.maxIters.Some? ==>
                  (forall i :: 0 <= i < |found| ==> found[i].iter < p.maxIters.value)
                  && |found| <= if p.maxIters.value < 0 then 0 else p.maxIters.value)
            && (WellBehaved(p.neighbours, p.costAdd) ==> AscendingFound(found))
  {
    var found := s.found;
    if p.maxIters.Some? {
      var iters := seq(|found|, i requires 0 <= i < |found| => found[i].iter);
      IncreasingBelowCap(iters, p.maxIters.value);
    }
  }

  /** A search none of whose walks reaches a solution node yields nothing. */
  lemma UnreachableYieldsNothing<N(!new)>(p: Problem<N>, fuel: nat)
    requires forall cost, path :: |path| > 0 && Walk(GraphOf(p), cost, path) ==> !p.isSolution(Last(path))
    ensures Run(p, Start(p), fuel).found == []
  {
    StartInv(p);
    RunInv(p, Start(p), fuel);
    var s := Run(p, Start(p), fuel);
    if s.found != [] {
      FoundIsWalk(p, s);
    }
  }

  /** The first thing yielded in a state of the invariant is a solving walk. */
  lemma FoundIsWalk<N(!new)>(p: Problem<N>, s: State<N>)
    requires Inv(p, s) && s.found != []
    ensures |s.found[0].path| > 0 && Walk(GraphOf(p), s.found[0].cost, s.found[0].path)
            && p.isSolution(Last(s.found[0].path))
  {
  }

  /** What every run has in its memo, with memoisation on: the last node of
      every yielded path past the initial node, at no more than its cost. */
  lemma RunMemoises<N(!new)>(p: Problem<N>, fuel: nat)
    requires p.memoize
    ensures var s := Run(p, Start(p), fuel);
            forall i :: 0 <= i < |s.found| && |s.found[i].path| > 1 ==>
              Dominated(s.memo, Last(s.found[i].path), s.found[i].cost)
  {
    StartInv(p);
    RunInv(p, Start(p), fuel);
  }

  // ---------------------------------------------------------------------------
  // Without memoisation, the first solution is the cheapest.

  /** Until something is yielded, the heap covers every walk to a solution;
      a search that ran dry yielding nothing had none to find; under
      `WellBehaved`, the first solution yielded costs no more than any walk
      to a solution. */
  ghost predicate CheapOk<N(!new)>(p: Problem<N>, s: State<N>)
  {
    && (s.status == Running && s.found == [] ==>
          forall steps :: Solving(GraphOf(p), p.isSolution, steps) ==> Covers(s.frontier, GraphOf(p), steps))
    && (s.status == Exhausted && s.found == [] ==> forall steps :: !Solving(GraphOf(p), p.isSolution, steps))
    && (WellBehaved(p.neighbours, p.costAdd) && s.found != [] ==>
          forall steps :: Solving(GraphOf(p), p.isSolution, steps) ==> s.found[0].cost <= FromRoot(GraphOf(p), steps).value.0)
  }

  /** The seed covers every walk: it holds the initial path itself. */
  lemma StartCheap<N(!new)>(p: Problem<N>)
    ensures CheapOk(p, Start(p))
  {
    StartInv(p);
    var s := Start(p);
    forall steps | Solving(GraphOf(p), p.isSolution, steps) ensures Covers(s.frontier, GraphOf(p), steps) {
      assert steps[..0] == [];
      assert UpcomingAt(s.frontier, GraphOf(p), steps[..0]);
    }
  }

  /** Without memoisation a turn keeps `CheapOk`: a pop from a heap covering
      a walk either returns that walk, or returns a walk on its way whose
      expansion, pushed, covers it again; the first solution popped costs no
      more than the walks the heap covers. */
  lemma StepCheap<N(!new)>(p: Problem<N>, s: State<N>)
    requires !p.memoize && Inv(p, s) && s.status == Running && CheapOk(p, s)
    ensures CheapOk(p, Step(p, s))
  {
    var g := GraphOf(p);
    var r := AfterPop(s.frontier, p.costAdd, s.memo);
    PopRooted(s.frontier, p.initialNode, p.memoize, p.costAdd, s.memo);
    var s' := Step(p, s);
    if s.found == [] && !HitsCap(p, s.n) {
      if r.item.None? {
        forall steps ensures !Solving(GraphOf(p), p.isSolution, steps) {
          CoversNonEmpty(s.frontier, g, steps);
        }
      } else if p.isSolution(Last(r.item.value.1)) {
        if WellBehaved(p.neighbours, p.costAdd) {
          forall steps | Solving(GraphOf(p), p.isSolution, steps) ensures s'.found[0].cost <= FromRoot(GraphOf(p), steps).value.0 {
            PopBelowCovered(s.frontier, g, s.memo, steps);
          }
        }
      } else {
        forall steps | Solving(GraphOf(p), p.isSolution, steps) ensures Covers(s'.frontier, g, steps) {
          PopCovers(s.frontier, g, s.memo, steps);
        }
      }
    }
  }

  lemma {:induction false} RunCheap<N(!new)>(p: Problem<N>, s: State<N>, fuel: nat)
    requires !p.memoize && Inv(p, s) && CheapOk(p, s)
    ensures CheapOk(p, Run(p, s, fuel))
    decreases fuel
  {
    if fuel == 0 {
      assert Run(p, s, fuel) == s;
    } else {
      RunCheap(p, s, fuel - 1);
      RunInv(p, s, fuel - 1);
      AdvanceCheap(p, Run(p, s, fuel - 1), Run(p, s, fuel));
    }
  }

  lemma AdvanceCheap<N(!new)>(p: Problem<N>, s: State<N>, r: State<N>)
    requires !p.memoize && Inv(p, s) && CheapOk(p, s) && r == Advance(p, s)
    ensures CheapOk(p, r)
  {
    if s.status == Running {
      StepCheap(p, s);
    }
  }

  /** Every run from the seed keeps `CheapOk` when memoisation is off. */
  lemma RunCheapFromStart<N(!new)>(p: Problem<N>, fuel: nat)
    requires !p.memoize
    ensures CheapOk(p, Run(p, Start(p), fuel))
  {
    StartInv(p);
    StartCheap(p);
    RunCheap(p, Start(p), fuel);
  }

  /** Best-first search as minimisation: with memoisation off and the
      producer's contract met, the first solution yielded costs no more
      than any walk from the initial node to a solution node. */
  lemma FirstIsCheapest<N(!new)>(p: Problem<N>, fuel: nat, cost: int, path: Path<N>)
    requires !p.memoize && WellBehaved(p.neighbours, p.costAdd)
    requires |path| > 0 && Walk(GraphOf(p), cost, path) && p.isSolution(Last(path))
    ensures var found := Run(p, Start(p), fuel).found;
            found != [] ==> found[0].cost <= cost
  {
    RunCheapFromStart(p, fuel);
    WalkFollow(GraphOf(p), cost, path);
    var steps :| FromRoot(GraphOf(p), steps) == Some((cost, path));
    assert Solving(GraphOf(p), p.isSolution, steps);
  }

  /** With memoisation off, a search that runs dry has yielded something
      whenever some walk reaches a solution node. */
  lemma ExhaustedMeansUnsolvable<N(!new)>(p: Problem<N>, fuel: nat, cost: int, path: Path<N>)
    requires !p.memoize
    requires |path| > 0 && Walk(GraphOf(p), cost, path) && p.isSolution(Last(path))
    ensures var s := Run(p, Start(p), fuel);
            s.status == Exhausted ==> s.found != []
  {
    RunCheapFromStart(p, fuel);
    WalkFollow(GraphOf(p), cost, path);
    var steps :| FromRoot(GraphOf(p), steps) == Some((cost, path));
    assert Solving(GraphOf(p), p.isSolution, steps);
  }

  // ---------------------------------------------------------------------------
  // With memoisation on, the first solution need not be the cheapest.

  /** From node 0 two edges lead to node 1, of increments 1 and 2, and one
      edge of increment 0 leads from node 1 to the solution node 2; adding
      anything to an accumulated cost of exactly 1 gives 100. */
  function MemoTrap(): Problem<int>
  {
    Problem(0, 0,
            n => if n == 0 then [(1, 1), (2, 1)] else if n == 1 then [(0, 2)] else [],
            n => n == 2,
            (a, c) => if a == 1 then 100 else a + c,
            true, None)
  }

  /** A producer meeting `WellBehaved` whose cheapest solution costs 2 (node
      1 reached at cost 2, then node 2 at cost 2), on which the memoised
      search yields the solution at cost 100 first: the pruning of the second
      edge into node 1, dominated at cost 2 by the first at cost 1, drops the
      only cheap continuation, since `cost_add` is not monotone in the
      accumulated cost. */
  lemma MemoMissesCheapest()
    ensures WellBehaved(MemoTrap().neighbours, MemoTrap().costAdd)
    ensures Walk(GraphOf(MemoTrap()), 2, [0, 1, 2]) && MemoTrap().isSolution(2)
    ensures Run(MemoTrap(), Start(MemoTrap()), 3).found == [Found(100, 2, [0, 1, 2])]
  {
    var p := MemoTrap();
    TrapWellBehaved();
    TrapWalk();
    var s0 := Start(p);
    TrapTurn0();
    TrapTurn1();
    TrapTurn2();
    assert Run(p, s0, 1) == TrapAfter1();
    assert Run(p, s0, 2) == TrapAfter2();
  }

  lemma TrapWellBehaved()
    ensures WellBehaved(MemoTrap().neighbours, MemoTrap().costAdd)
  {
    var p := MemoTrap();
    forall a, n, i | 0 <= i < |p.neighbours(n)| ensures a <= p.costAdd(a, p.neighbours(n)[i].0) {
      assert p.neighbours(n)[i].0 >= 0;
    }
  }

  lemma TrapWalk()
    ensures Walk(GraphOf(MemoTrap()), 2, [0, 1, 2])
  {
    var g := GraphOf(MemoTrap());
    assert [0, 1][..1] == [0] && [0, 1, 2][..2] == [0, 1];
    assert Walk(g, 0, [0]);
    assert Walk(g, 2, [0, 1]) by {
      assert g.neighbours(0)[1] == (2, 1) && g.costAdd(0, 2) == 2;
    }
    assert g.neighbours(1)[0] == (0, 2) && g.costAdd(2, 0) == 2;
  }

  /** The heap, memo and counters after the first and the second turn. */
  function TrapAfter1(): State<int>
  {
    State(Frontier([Entry(1, 1, [0, 1], Expand(0, [0], [(1, 1), (2, 1)], 1, true))], 2), map[1 := 1], 1, [], Running)
  }

  function TrapAfter2(): State<int>
  {
    State(Frontier([Entry(100, 2, [0, 1, 2], Expand(1, [0, 1], [(0, 2)], 1, true))], 3), map[1 := 1, 2 := 100], 2, [], Running)
  }

  /** The first turn pops the seed and pushes the expansion of node 0, which
      yields node 1 at cost 1 and records it. */
  lemma TrapTurn0()
    ensures Advance(MemoTrap(), Start(MemoTrap())) == TrapAfter1()
  {
    var p := MemoTrap();
    var seed := Entry(0, 0, [0], Items([(0, [0])], 1));
    var s := State(Frontier([seed], 1), map[], 0, [], Running);
    assert Start(p) == s;
    assert Turnable(p, s);
    var r := AfterPop(s.frontier, p.costAdd, s.memo);
    assert MinPos([seed]) == 0 && Remove([seed], 0) == [];
    assert r == Popped(Some((0, [0])), Frontier([], 1), map[]);
    var c := Expand(0, [0], [(1, 1), (2, 1)], 0, true);
    assert Expansion(p, 0, [0]) == c;
    assert !Skipped(c, 0, p.costAdd, map[]);
    assert FirstKept(c, p.costAdd, map[]) == 0;
    assert Total(c, 0, p.costAdd) == 1 && [0] + [1] == [0, 1];
    assert Pull(c, p.costAdd, map[]) == Pulled(Some((1, [0, 1])), At(c, 1), map[1 := 1]);
    assert Step(p, s) == Resume(p, s, r);
  }

  /** The second turn pops node 1. Its iterator's other candidate, node 1 at
      cost 2, is dominated by the memo and skipped; the expansion of node 1
      yields node 2 at cost 100. */
  lemma TrapTurn1()
    ensures Advance(MemoTrap(), TrapAfter1()) == TrapAfter2()
  {
    var p := MemoTrap();
    var s := TrapAfter1();
    var c := Expand(0, [0], [(1, 1), (2, 1)], 1, true);
    assert Skipped(c, 1, p.costAdd, map[1 := 1]);
    assert FirstKept(At(c, 2), p.costAdd, map[1 := 1]) == 2;
    assert FirstKept(c, p.costAdd, map[1 := 1]) == 2;
    var r := AfterPop(s.frontier, p.costAdd, s.memo);
    assert r == Popped(Some((1, [0, 1])), Frontier([], 2), map[1 := 1]);
    var e := Expand(1, [0, 1], [(0, 2)], 0, true);
    assert !Skipped(e, 0, p.costAdd, map[1 := 1]);
    assert FirstKept(e, p.costAdd, map[1 := 1]) == 0;
    assert map[1 := 1][2 := 100] == map[1 := 1, 2 := 100];
    assert Total(e, 0, p.costAdd) == 100 && [0, 1] + [2] == [0, 1, 2];
    assert Pull(e, p.costAdd, map[1 := 1]) == Pulled(Some((100, [0, 1, 2])), At(e, 1), map[1 := 1, 2 := 100]);
  }

  /** The third turn pops node 2 at cost 100 and yields it. */
  lemma TrapTurn2()
    ensures Advance(MemoTrap(), TrapAfter2()).found == [Found(100, 2, [0, 1, 2])]
  {
    var p := MemoTrap();
    var s := TrapAfter2();
    var c := Expand(1, [0, 1], [(0, 2)], 1, true);
    assert FirstKept(c, p.costAdd, s.memo) == 1;
    var r := AfterPop(s.frontier, p.costAdd, s.memo);
    assert r.item == Some((100, [0, 1, 2]));
  }

  /** One turn of the loop on the imperative heap. */
  method Turn<N(==)>(p: Problem<N>, heap: SingleThread<N>, memo: Memo<N>, n: nat, found: seq<Found<N>>)
    returns (memo': Memo<N>, n': nat, found': seq<Found<N>>, status: Status)
    requires heap.Valid() && Turnable(p, State(heap.State(), memo, n, found, Running))
    modifies heap
    ensures heap.Valid()
    ensures State(heap.State(), memo', n', found', status) == Step(p, old(State(heap.State(), memo, n, found, Running)))
  {
    ghost var s := State(heap.State(), memo, n, found, Running);
    PopRooted(s.frontier, p.initialNode, p.memoize, p.costAdd, memo);
    var item, popped := heap.Pop(p.costAdd, memo);
    ghost var r := Popped(item, heap.State(), popped);
    assert Step(p, s) == Resume(p, s, r);
    memo', n', found', status := Continue(p, heap, s, item, popped, n, found);
  }

  /** The rest of a turn of `best_first_search`'s loop once the pop is done. */
  method Continue<N(==)>(p: Problem<N>, heap: SingleThread<N>, ghost s: State<N>,
                         item: Option<(int, Path<N>)>, memo: Memo<N>, n: nat, found: seq<Found<N>>)
    returns (memo': Memo<N>, n': nat, found': seq<Found<N>>, status: Status)
    requires heap.Valid() && s.n == n && s.found == found
    requires item.Some? ==> |item.value.1| > 0
    modifies heap
    ensures heap.Valid()
    ensures State(heap.State(), memo', n', found', status) == Resume(p, s, Popped(item, old(heap.State()), memo))
  {
    memo', n', found' := memo, n, found;
    if p.maxIters.Some? && n >= p.maxIters.value {
      // too many iterations
      heap.Stop();
      status := Capped;
    } else if item.None? {
      // nothing left to search
      heap.Stop();
      status := Exhausted;
    } else {
      status := Running;
      var (cost, path) := item.value;
      if !p.isSolution(path[|path| - 1]) {
        memo' := heap.Push(Expand(cost, path, p.neighbours(path[|path| - 1]), 0, p.memoize), p.costAdd, memo);
      } else {
        found' := found + [Found(cost, n, path)];
      }
      n' := n + 1;
    }
  }

  /** `best_first_search` run for at most `fuel` turns of its loop: what it
      yields, and whether it returned (at the cap or with the heap empty) or
      was left suspended. */
  method BestFirstSearch<N(==,!new)>(
    initialCost: int,
    initialNode: N,
    neighbours: N -> seq<(int, N)>,
    isSolution: N -> bool,
    costAdd: (int, int) -> int,
    memoize: bool,
    maxIters: Option<int>,
    fuel: nat)
    returns (found: seq<Found<N>>, status: Status)
    ensures var p := Problem(initialCost, initialNode, neighbours, isSolution, costAdd, memoize, maxIters);
            var s := Run(p, Start(p), fuel);
            found == s.found && status == s.status
  {
    var p := Problem(initialCost, initialNode, neighbours, isSolution, costAdd, memoize, maxIters);
    var heap := new SingleThread<N>();
    var memo: Memo<N> := map[];
    assert heap.State() == Empty();
    memo := heap.Push(Seed(p), costAdd, memo);
    var n: nat := 0;
    found, status := [], Running;
    StartInv(p);
    assert State(heap.State(), memo, n, found, status) == Start(p);
    var turns: nat := 0;
    while status == Running && turns < fuel
      invariant heap.Valid()
      invariant turns <= fuel
      invariant State(heap.State(), memo, n, found, status) == Run(p, Start(p), turns)
      decreases fuel - turns
    {
      RunInv(p, Start(p), turns);
      memo, n, found, status := Turn(p, heap, memo, n, found);
      turns := turns + 1;
    }
    if turns < fuel {
      RunStays(p, Start(p), turns, fuel);
    }
  }
}
