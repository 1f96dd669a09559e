/**
 * `best_first_search`, old version: pop the cheapest path; stop when the
 * heap runs dry; with memoisation on, throw the popped path away when a
 * path at least as cheap to its last node has been popped before, and
 * otherwise record its cost; yield a path that ends in a solution, and
 * otherwise push the plain (never pruning) expansion of it.
 *
 * As for the current version, the generator is a state machine with one
 * `Step` per turn of its `while` loop, and `Run` and the method take the
 * number of turns the caller lets happen. The old iterators never look at a
 * memo, so the heap is driven with an empty one throughout.
 */
module SearchOld {
  import opened Cursors
  import opened LazyHeap

  /** The arguments of the old `best_first_search`. */
  datatype Problem<!N> = Problem(
    initialCost: int,
    initialNode: N,
    neighbours: N -> seq<(int, N)>,
    isSolution: N -> bool,
    costAdd: (int, int) -> int,
    memoize: bool)

  /** The generator's locals between two turns of its loop: the heap, the
      `node2known_cost` table, what it has yielded so far, and whether it
      has returned. */
  datatype State<N> = State(frontier: Frontier<N>, known: Memo<N>, found: seq<(int, Path<N>)>, returned: bool)

  /** The seed `iter([(initial_cost, (initial_node,))])`. */
  function Seed<N>(p: Problem<N>): Cursor<N>
  {
    Items([(p.initialCost, [p.initialNode])], 0)
  }

  /** `_iterate(cost, nodes)`, which yields every neighbour unconditionally. */
  function Expansion<N>(p: Problem<N>, cost: int, path: Path<N>): Cursor<N>
    requires |path| > 0
  {
    Expand(cost, path, p.neighbours(Last(path)), 0, false)
  }

  /** The graph the producer describes, rooted at the initial node. */
  function GraphOf<N>(p: Problem<N>): Graph<N>
  {
    Graph(p.initialNode, p.initialCost, p.neighbours, p.costAdd)
  }

  /** The pop-time check: memoisation is on and the last node already has a
      recorded cost no greater than this one. */
  predicate Discarded<N>(p: Problem<N>, known: Memo<N>, cost: int, path: Path<N>)
    requires |path| > 0
  {
    p.memoize && Dominated(known, Last(path), cost)
  }

  /** A heap holding only the seed, an empty table, nothing yielded yet. */
  ghost function Start<N>(p: Problem<N>): (s: State<N>)
    ensures |s.frontier.entries| == 1 && s.known == map[] && s.found == [] && !s.returned
  {
    State(AfterPush(Empty(), Seed(p), p.costAdd, map[]).0, map[], [], false)
  }

  /** One turn of the loop: pop, then handle what came out. */
  ghost function Step<N>(p: Problem<N>, s: State<N>): (s': State<N>)
    requires Turnable(p, s)
    ensures s.found <= s'.found && |s'.found| <= |s.found| + 1
    ensures s'.returned ==> s'.found == s.found && s'.known == s.known
  {
    PopRooted(s.frontier, p.initialNode, false, p.costAdd, map[]);
    var r := AfterPop(s.frontier, p.costAdd, map[]);
    Resume(p, s, r.item, r.frontier)
  }

  /** The rest of the turn, given the popped item and the heap after the pop. */
  ghost function Resume<N>(p: Problem<N>, s: State<N>, item: Option<(int, Path<N>)>, f: Frontier<N>): (s': State<N>)
    requires item.Some? ==> |item.value.1| > 0
    ensures s.found <= s'.found && |s'.found| <= |s.found| + 1
    ensures s'.returned <==> item.None?
    ensures s'.returned ==> s'.found == s.found && s'.known == s.known
  {
    if item.None? then State(f, s.known, s.found, true)
    else
      var (cost, path) := item.value;
      if Discarded(p, s.known, cost, path) then State(f, s.known, s.found, false)
      else
        var known := if p.memoize then s.known[Last(path) := cost] else s.known;
        if p.isSolution(Last(path)) then State(f, known, s.found + [(cost, path)], false)
        else State(AfterPush(f, Expansion(p, cost, path), p.costAdd, map[]).0, known, s.found, false)
  }

  /** A state a turn can start from: the generator has not returned, and its
      heap is rooted and holds no pruning iterator. */
  ghost predicate Turnable<N>(p: Problem<N>, s: State<N>)
  {
    !s.returned && Rooted(s.frontier, p.initialNode) && Pruning(s.frontier, false)
  }

  /** One more turn of the loop, if the generator has not returned (see
      `Search.Advance` for the guard). */
  ghost function Advance<N>(p: Problem<N>, s: State<N>): State<N>
  {
    if Turnable(p, s) then Step(p, s)
    else s
  }

  /** The generator run for `fuel` turns of its loop. */
  ghost function Run<N>(p: Problem<N>, s: State<N>, fuel: nat): (r: State<N>)
    ensures s.found <= r.found && |r.found| <= |s.found| + fuel
    decreases fuel
  {
    if fuel == 0 then s else Advance(p, Run(p, s, fuel - 1))
  }

  // ---------------------------------------------------------------------------
  // The invariant of the loop.

  ghost predicate Solves<N>(p: Problem<N>, path: Path<N>)
  {
    RootedPath(path, p.initialNode) && p.isSolution(Last(path))
  }

  /** Everything yielded solves the problem and, with memoisation on, has its
      last node recorded at no more than its cost. */
  ghost predicate FoundOk<N>(p: Problem<N>, s: State<N>)
  {
    forall i :: 0 <= i < |s.found| ==>
      && Solves(p, s.found[i].1)
      && (p.memoize ==> Dominated(s.known, Last(s.found[i].1), s.found[i].0))
  }

  /** No two yielded paths end in the same node. */
  ghost predicate DistinctEnds<N>(found: seq<(int, Path<N>)>)
    requires forall i :: 0 <= i < |found| ==> |found[i].1| > 0
  {
    forall i, j :: 0 <= i < j < |found| ==> Last(found[i].1) != Last(found[j].1)
  }

  /** The heap is ordered, what has been yielded is ascending, nothing in the
      heap undercuts the last solution, and with memoisation on no solution
      node has been yielded twice. */
  ghost predicate OrderOk<N>(p: Problem<N>, s: State<N>)
    requires forall i :: 0 <= i < |s.found| ==> |s.found[i].1| > 0
  {
    && Ordered(s.frontier, p.costAdd)
    && Ascending(s.found)
    && (|s.found| > 0 ==> Floor(s.frontier, s.found[|s.found| - 1].0))
    && (p.memoize ==> DistinctEnds(s.found))
  }

  /** Everything in the heap and everything yielded is a walk of the graph
      at its own cost. */
  ghost predicate WalkOk<N>(p: Problem<N>, s: State<N>)
  {
    && Walks(s.frontier, GraphOf(p))
    && (forall i :: 0 <= i < |s.found| ==> Walk(GraphOf(p), s.found[i].0, s.found[i].1))
  }

  ghost predicate Inv<N(!new)>(p: Problem<N>, s: State<N>)
  {
    && WalkOk(p, s)
    && WellFormed(s.frontier)
    && Rooted(s.frontier, p.initialNode)
    && Pruning(s.frontier, false)
    && (!p.memoize ==> s.known == map[])
    && FoundOk(p, s)
    && (WellBehaved(p.neighbours, p.costAdd) ==> OrderOk(p, s))
  }

  /** The seed state satisfies the invariant: one entry, the initial path at
      the initial cost, and an empty table. */
  lemma StartInv<N(!new)>(p: Problem<N>)
    ensures Inv(p, Start(p))
    ensures Start(p).frontier.entries == [Entry(p.initialCost, 0, [p.initialNode], Items([(p.initialCost, [p.initialNode])], 1))]
    ensures Start(p).known == map[]
  {
    var s := Start(p);
    assert s.frontier.entries == [Entry(p.initialCost, 0, [p.initialNode], Items([(p.initialCost, [p.initialNode])], 1))];
  }

  lemma StepStructure<N>(p: Problem<N>, s: State<N>)
    requires Turnable(p, s) && WellFormed(s.frontier)
    ensures var s' := Step(p, s);
            && WellFormed(s'.frontier) && Rooted(s'.frontier, p.initialNode) && Pruning(s'.frontier, false)
            && (!p.memoize ==> s'.known == s.known)
  {
    var r := AfterPop(s.frontier, p.costAdd, map[]);
    PopRooted(s.frontier, p.initialNode, false, p.costAdd, map[]);
    WellFormedKept(s.frontier, Seed(p), p.costAdd, map[]);
    if r.item.Some? {
      var (cost, path) := r.item.value;
      if !Discarded(p, s.known, cost, path) && !p.isSolution(Last(path)) {
        var c := Expansion(p, cost, path);
        WellFormedKept(r.frontier, c, p.costAdd, map[]);
        PushRooted(r.frontier, c, p.initialNode, false, p.costAdd, map[]);
      }
    }
  }

  /** The table only ever narrows: no entry is removed, and an entry is
      rewritten only with a strictly lower cost. */
  lemma StepKnown<N>(p: Problem<N>, s: State<N>)
    requires Turnable(p, s)
    ensures var s' := Step(p, s);
            && (forall k :: k in s.known ==> k in s'.known && s'.known[k] <= s.known[k])
            && (forall k :: k in s.known && s'.known[k] != s.known[k] ==> s'.known[k] < s.known[k])
  {
    PopRooted(s.frontier, p.initialNode, false, p.costAdd, map[]);
  }

  lemma StepFound<N>(p: Problem<N>, s: State<N>)
    requires Turnable(p, s) && FoundOk(p, s)
    ensures FoundOk(p, Step(p, s))
  {
    PopRooted(s.frontier, p.initialNode, false, p.costAdd, map[]);
    StepKnown(p, s);
  }

  /** The pop of a turn keeps the heap ordered and comes out no cheaper than
      the last solution yielded. */
  lemma PopOrder<N(!new)>(p: Problem<N>, s: State<N>)
    requires Ordered(s.frontier, p.costAdd) && Ascending(s.found)
    requires |s.found| > 0 ==> Floor(s.frontier, s.found[|s.found| - 1].0)
    ensures var r := AfterPop(s.frontier, p.costAdd, map[]);
            && Ordered(r.frontier, p.costAdd)
            && (r.item.None? ==> r.frontier == s.frontier)
            && (r.item.Some? ==>
                  && Floor(r.frontier, r.item.value.0)
                  && (|s.found| > 0 ==> s.found[|s.found| - 1].0 <= r.item.value.0))
  {
    if s.frontier.entries != [] {
      var c := AfterPop(s.frontier, p.costAdd, map[]).item.value.0;
      PopFloor(s.frontier, p.costAdd, map[]);
      var lo := if |s.found| > 0 then s.found[|s.found| - 1].0 else c;
      PopOrdered(s.frontier, lo, p.costAdd, map[]);
    }
  }

  /** A yielded path that survived the pop-time check ends in a node none of
      the earlier, no more expensive, solutions ended in. */
  lemma NewEnd<N>(p: Problem<N>, s: State<N>, cost: int, path: Path<N>)
    requires p.memoize && |path| > 0 && !Discarded(p, s.known, cost, path)
    requires FoundOk(p, s) && Ascending(s.found) && (|s.found| > 0 ==> s.found[|s.found| - 1].0 <= cost)
    requires DistinctEnds(s.found)
    ensures DistinctEnds(s.found + [(cost, path)])
  {
    var found := s.found + [(cost, path)];
    forall i | 0 <= i < |s.found|
      ensures Last(s.found[i].1) != Last(path)
    {
      assert s.found[i].0 <= s.found[|s.found| - 1].0;
    }
    assert forall i :: 0 <= i < |s.found| ==> found[i] == s.found[i];
  }

  lemma ResumeOrder<N(!new)>(p: Problem<N>, s: State<N>, item: Option<(int, Path<N>)>, f: Frontier<N>)
    requires WellBehaved(p.neighbours, p.costAdd) && FoundOk(p, s) && OrderOk(p, s) && Ordered(f, p.costAdd)
    requires item.None? ==> |s.found| > 0 ==> Floor(f, s.found[|s.found| - 1].0)
    requires item.Some? ==>
               && |item.value.1| > 0 && Floor(f, item.value.0)
               && (|s.found| > 0 ==> s.found[|s.found| - 1].0 <= item.value.0)
    ensures var s' := Resume(p, s, item, f);
            && (forall i :: 0 <= i < |s'.found| ==> |s'.found[i].1| > 0)
            && OrderOk(p, s')
  {
    if item.Some? {
      var (cost, path) := item.value;
      if !Discarded(p, s.known, cost, path) {
        var known := if p.memoize then s.known[Last(path) := cost] else s.known;
        if p.isSolution(Last(path)) {
          YieldOrder(p, s, cost, path, f, known);
        } else {
          ExpansionAscending(p.neighbours, p.costAdd, cost, path, false);
          PushOrdered(f, Expansion(p, cost, path), cost, p.costAdd, map[]);
        }
      }
    }
  }

  /** Yielding a popped solution keeps the yielded costs ascending and, with
      memoisation on, their end nodes distinct. */
  lemma YieldOrder<N>(p: Problem<N>, s: State<N>, cost: int, path: Path<N>, f: Frontier<N>, known: Memo<N>)
    requires FoundOk(p, s) && OrderOk(p, s) && Ordered(f, p.costAdd) && Floor(f, cost)
    requires |path| > 0 && !Discarded(p, s.known, cost, path)
    requires |s.found| > 0 ==> s.found[|s.found| - 1].0 <= cost
    ensures var s' := State(f, known, s.found + [(cost, path)], false);
            && (forall i :: 0 <= i < |s'.found| ==> |s'.found[i].1| > 0)
            && OrderOk(p, s')
  {
    var found := s.found + [(cost, path)];
    assert forall i :: 0 <= i < |s.found| ==> found[i] == s.found[i];
    if p.memoize {
      NewEnd(p, s, cost, path);
    }
  }

  lemma StepOrder<N(!new)>(p: Problem<N>, s: State<N>)
    requires Turnable(p, s) && WellBehaved(p.neighbours, p.costAdd) && FoundOk(p, s) && OrderOk(p, s)
    ensures var s' := Step(p, s);
            && (forall i :: 0 <= i < |s'.found| ==> |s'.found[i].1| > 0)
            && OrderOk(p, s')
  {
    PopRooted(s.frontier, p.initialNode, false, p.costAdd, map[]);
    PopOrder(p, s);
    var r := AfterPop(s.frontier, p.costAdd, map[]);
    ResumeOrder(p, s, r.item, r.frontier);
  }

  /** A turn pops a walk and pushes the expansion of a walk, so both the
      heap and what has been yielded stay walks. */
  lemma StepWalks<N>(p: Problem<N>, s: State<N>)
    requires Turnable(p, s) && WalkOk(p, s)
    ensures WalkOk(p, Step(p, s))
  {
    var g := GraphOf(p);
    var r := AfterPop(s.frontier, p.costAdd, map[]);
    PopRooted(s.frontier, p.initialNode, false, p.costAdd, map[]);
    PopWalks(s.frontier, g, map[]);
    if r.item.Some? {
      var (cost, path) := r.item.value;
      if !Discarded(p, s.known, cost, path) && !p.isSolution(Last(path)) {
        PushWalks(r.frontier, Expansion(p, cost, path), g, map[]);
      }
    }
  }

  lemma StepKeepsInv<N(!new)>(p: Problem<N>, s: State<N>)
    requires Inv(p, s) && !s.returned
    ensures Inv(p, Step(p, s))
  {
    StepStructure(p, s);
    StepFound(p, s);
    StepWalks(p, s);
    if WellBehaved(p.neighbours, p.costAdd) {
      StepOrder(p, s);
    }
  }

  // ---------------------------------------------------------------------------
  // One turn at a time.

  /** The rules of one turn: the search returns exactly when the pop finds
      the heap empty. With memoisation on, a popped path is thrown away if and
      only if its last node is recorded at no more than its cost, and
      otherwise that node is recorded at its cost. A path that is not thrown
      away is yielded, and not expanded, if it ends in a solution, and gets
      exactly one expansion pushed otherwise. */
  lemma StepRules<N(!new)>(p: Problem<N>, s: State<N>)
    requires Inv(p, s) && !s.returned
    ensures var s' := Step(p, s);
            var r := AfterPop(s.frontier, p.costAdd, map[]);
            && (s'.returned <==> s.frontier.entries == [])
            && (s'.returned ==> s'.found == s.found && s'.known == s.known && s'.frontier == s.frontier)
            && (!s'.returned ==>
                  && r.item.Some? && |r.item.value.1| > 0
                  && var (cost, path) := r.item.value;
                     if Discarded(p, s.known, cost, path) then
                       s'.found == s.found && s'.known == s.known && s'.frontier == r.frontier
                     else
                       && s'.known == (if p.memoize then s.known[Last(path) := cost] else s.known)
                       && if p.isSolution(Last(path)) then
                            s'.found == s.found + [(cost, path)] && s'.frontier == r.frontier
                          else
                            s'.found == s.found
                            && s'.frontier == AfterPush(r.frontier, Expansion(p, cost, path), p.costAdd, map[]).0)
  {
    PopRooted(s.frontier, p.initialNode, false, p.costAdd, map[]);
    PopReturnsLeast(s.frontier, p.costAdd, map[]);
  }

  // ---------------------------------------------------------------------------
  // Whole runs.

  /** `r` comes later in the same run as `s`: nothing yielded is taken back,
      the table only narrows, and a search that has returned stays so. */
  ghost predicate Extends<N>(s: State<N>, r: State<N>)
  {
    && |s.found| <= |r.found| && r.found[..|s.found|] == s.found
    && (forall k :: k in s.known ==> k in r.known && r.known[k] <= s.known[k])
    && (s.returned ==> r.returned)
  }

  lemma ExtendsTrans<N>(a: State<N>, b: State<N>, c: State<N>)
    requires Extends(a, b) && Extends(b, c)
    ensures Extends(a, c)
  {
    assert c.found[..|a.found|] == c.found[..|b.found|][..|a.found|];
  }

  /** One more turn keeps the invariant and extends the run. */
  lemma AdvanceInv<N(!new)>(p: Problem<N>, s: State<N>)
    requires Inv(p, s)
    ensures Inv(p, Advance(p, s)) && Extends(s, Advance(p, s))
  {
    if !s.returned {
      StepKeepsInv(p, s);
      StepKnown(p, s);
      PopRooted(s.frontier, p.initialNode, false, p.costAdd, map[]);
    }
  }

  /** Every run keeps the invariant, never takes back a yielded item or a
      table entry, and a search that has returned stays returned. */
  lemma {:induction false} RunInv<N(!new)>(p: Problem<N>, s: State<N>, fuel: nat)
    requires Inv(p, s)
    ensures Inv(p, Run(p, s, fuel)) && Extends(s, Run(p, s, fuel))
    decreases fuel
  {
    if fuel == 0 {
      assert Run(p, s, fuel) == s;
    } else {
      RunInv(p, s, fuel - 1);
      AdvanceExtends(p, s, Run(p, s, fuel - 1), Run(p, s, fuel));
    }
  }

  lemma AdvanceExtends<N(!new)>(p: Problem<N>, s: State<N>, q: State<N>, r: State<N>)
    requires Inv(p, q) && Extends(s, q) && r == Advance(p, q)
    ensures Inv(p, r) && Extends(s, r)
  {
    AdvanceInv(p, q);
    ExtendsTrans(s, q, r);
  }

  /** A run that has returned takes no further turn. */
  lemma RunHalted<N>(p: Problem<N>, s: State<N>, fuel: nat)
    requires Run(p, s, fuel).returned
    ensures Run(p, s, fuel + 1) == Run(p, s, fuel)
  {
  }

  /** Once the search has returned, more fuel changes nothing. */
  lemma {:induction false} RunStays<N>(p: Problem<N>, s: State<N>, fuel: nat, more: nat)
    requires Run(p, s, fuel).returned && fuel <= more
    ensures Run(p, s, more) == Run(p, s, fuel)
    decreases more
  {
    if fuel < more {
      RunStays(p, s, fuel, more - 1);
      RunHalted(p, s, more - 1);
    }
  }

  /** What every run yields: solutions, each path a walk of the graph from
      the initial node, at the cost of that walk, ending in a solution node;
      and, under `WellBehaved`, non-decreasing costs and, with memoisation
      on, never the same solution node twice. */
  lemma RunYields<N(!new)>(p: Problem<N>, fuel: nat)
    ensures var found := Run(p, Start(p), fuel).found;
            && (forall i :: 0 <= i < |found| ==> Solves(p, found[i].1))
            && (forall i :: 0 <= i < |found| ==> Walk(GraphOf(p), found[i].0, found[i].1))
            && (WellBehaved(p.neighbours, p.costAdd) ==> Ascending(found))
            && (WellBehaved(p.neighbours, p.costAdd) && p.memoize ==> DistinctEnds(found))
  {
    StartInv(p);
    RunInv(p, Start(p), fuel);
  }

  /** A search none of whose walks reaches a solution node yields nothing. */
  lemma UnreachableYieldsNothing<N(!new)>(p: Problem<N>, fuel: nat)
    requires forall cost, path :: |path| > 0 && Walk(GraphOf(p), cost, path) ==> !p.isSolution(Last(path))
    ensures Run(p, Start(p), fuel).found == []
  {
    StartInv(p);
    RunInv(p, Start(p), fuel);
    var s := Run(p, Start(p), fuel);
    if s.found != [] {
      FoundIsWalk(p, s);
    }
  }

  /** The first thing yielded in a state of the invariant is a solving walk. */
  lemma FoundIsWalk<N(!new)>(p: Problem<N>, s: State<N>)
    requires Inv(p, s) && s.found != []
    ensures |s.found[0].1| > 0 && Walk(GraphOf(p), s.found[0].0, s.found[0].1)
            && p.isSolution(Last(s.found[0].1))
  {
  }

  // ---------------------------------------------------------------------------
  // Without memoisation, the first solution is the cheapest.

  /** Until something is yielded, the heap covers every walk to a solution;
      a search that returned yielding nothing had none to find; under
      `WellBehaved`, the first solution yielded costs no more than any walk
      to a solution. */
  ghost predicate CheapOk<N(!new)>(p: Problem<N>, s: State<N>)
  {
    && (!s.returned && s.found == [] ==>
          forall steps :: Solving(GraphOf(p), p.isSolution, steps) ==> Covers(s.frontier, GraphOf(p), steps))
    && (s.returned && s.found == [] ==> forall steps :: !Solving(GraphOf(p), p.isSolution, steps))
    && (WellBehaved(p.neighbours, p.costAdd) && s.found != [] ==>
          forall steps :: Solving(GraphOf(p), p.isSolution, steps) ==> s.found[0].0 <= FromRoot(GraphOf(p), steps).value.0)
  }

  /** The seed covers every walk: it holds the initial path itself. */
  lemma StartCheap<N(!new)>(p: Problem<N>)
    ensures CheapOk(p, Start(p))
  {
    StartInv(p);
    var s := Start(p);
    forall steps | Solving(GraphOf(p), p.isSolution, steps) ensures Covers(s.frontier, GraphOf(p), steps) {
      assert steps[..0] == [];
      assert UpcomingAt(s.frontier, GraphOf(p), steps[..0]);
    }
  }

  /** Without memoisation a turn keeps `CheapOk`: nothing is thrown away, so
      a pop from a heap covering a walk either returns that walk, or returns
      a walk on its way whose expansion, pushed, covers it again; the first
      solution popped costs no more than the walks the heap covers. */
  lemma StepCheap<N(!new)>(p: Problem<N>, s: State<N>)
    requires !p.memoize && Inv(p, s) && !s.returned && CheapOk(p, s)
    ensures CheapOk(p, Step(p, s))
  {
    var g := GraphOf(p);
    var r := AfterPop(s.frontier, p.costAdd, map[]);
    PopRooted(s.frontier, p.initialNode, false, p.costAdd, map[]);
    var s' := Step(p, s);
    if s.found == [] {
      if r.item.None? {
        forall steps ensures !Solving(g, p.isSolution, steps) {
          CoversNonEmpty(s.frontier, g, steps);
        }
      } else if p.isSolution(Last(r.item.value.1)) {
        if WellBehaved(p.neighbours, p.costAdd) {
          forall steps | Solving(g, p.isSolution, steps) ensures s'.found[0].0 <= FromRoot(g, steps).value.0 {
            PopBelowCovered(s.frontier, g, map[], steps);
          }
        }
      } else {
        forall steps | Solving(g, p.isSolution, steps) ensures Covers(s'.frontier, g, steps) {
          PopCovers(s.frontier, g, map[], steps);
        }
      }
    }
  }

  lemma AdvanceCheap<N(!new)>(p: Problem<N>, s: State<N>, r: State<N>)
    requires !p.memoize && Inv(p, s) && CheapOk(p, s) && r == Advance(p, s)
    ensures CheapOk(p, r)
  {
    if !s.returned {
      StepCheap(p, s);
    }
  }

  /** Every run from the seed keeps `CheapOk` when memoisation is off. */
  lemma RunCheapFromStart<N(!new)>(p: Problem<N>, fuel: nat)
    requires !p.memoize
    ensures CheapOk(p, Run(p, Start(p), fuel))
  {
    StartInv(p);
    StartCheap(p);
    RunCheap(p, Start(p), fuel);
  }

  lemma {:induction false} RunCheap<N(!new)>(p: Problem<N>, s: State<N>, fuel: nat)
    requires !p.memoize && Inv(p, s) && CheapOk(p, s)
    ensures CheapOk(p, Run(p, s, fuel))
    decreases fuel
  {
    if fuel == 0 {
      assert Run(p, s, fuel) == s;
    } else {
      RunCheap(p, s, fuel - 1);
      RunInv(p, s, fuel - 1);
      AdvanceCheap(p, Run(p, s, fuel - 1), Run(p, s, fuel));
    }
  }

  /** Best-first search as minimisation: with memoisation off and the
      producer's contract met, the first solution yielded costs no more
      than any walk from the initial node to a solution node. */
  lemma FirstIsCheapest<N(!new)>(p: Problem<N>, fuel: nat, cost: int, path: Path<N>)
    requires !p.memoize && WellBehaved(p.neighbours, p.costAdd)
    requires |path| > 0 && Walk(GraphOf(p), cost, path) && p.isSolution(Last(path))
    ensures var found := Run(p, Start(p), fuel).found;
            found != [] ==> found[0].0 <= cost
  {
    RunCheapFromStart(p, fuel);
    WalkFollow(GraphOf(p), cost, path);
    var steps :| FromRoot(GraphOf(p), steps) == Some((cost, path));
    assert Solving(GraphOf(p), p.isSolution, steps);
  }

  /** With memoisation off, a search that has returned has yielded
      something whenever some walk reaches a solution node. */
  lemma ReturnedMeansUnsolvable<N(!new)>(p: Problem<N>, fuel: nat, cost: int, path: Path<N>)
    requires !p.memoize
    requires |path| > 0 && Walk(GraphOf(p), cost, path) && p.isSolution(Last(path))
    ensures var s := Run(p, Start(p), fuel);
            s.returned ==> s.found != []
  {
    RunCheapFromStart(p, fuel);
    WalkFollow(GraphOf(p), cost, path);
    var steps :| FromRoot(GraphOf(p), steps) == Some((cost, path));
    assert Solving(GraphOf(p), p.isSolution, steps);
  }

  /** One turn of the loop on the imperative heap. */
  method Turn<N(==)>(p: Problem<N>, heap: SingleThread<N>, known: Memo<N>, found: seq<(int, Path<N>)>)
    returns (known': Memo<N>, found': seq<(int, Path<N>)>, returned: bool)
    requires heap.Valid() && Turnable(p, State(heap.State(), known, found, false))
    modifies heap
    ensures heap.Valid()
    ensures State(heap.State(), known', found', returned) == Step(p, old(State(heap.State(), known, found, false)))
  {
    ghost var s := State(heap.State(), known, found, false);
    PopRooted(s.frontier, p.initialNode, false, p.costAdd, map[]);
    var item, unused := heap.Pop(p.costAdd, map[]);
    assert Step(p, s) == Resume(p, s, item, heap.State());
    known', found', returned := Continue(p, heap, s, item, known, found);
  }

  /** The rest of a turn of the loop once the pop is done. */
  method Continue<N(==)>(p: Problem<N>, heap: SingleThread<N>, ghost s: State<N>,
                         item: Option<(int, Path<N>)>, known: Memo<N>, found: seq<(int, Path<N>)>)
    returns (known': Memo<N>, found': seq<(int, Path<N>)>, returned: bool)
    requires heap.Valid() && s.known == known && s.found == found
    requires item.Some? ==> |item.value.1| > 0
    modifies heap
    ensures heap.Valid()
    ensures State(heap.State(), known', found', returned) == Resume(p, s, item, old(heap.State()))
  {
    known', found', returned := known, found, false;
    if item.None? {
      // no more to search
      returned := true;
      return;
    }
    var (cost, path) := item.value;
    var last := path[|path| - 1];
    if p.memoize {
      if last in known && known[last] <= cost {
        return;
      }
      known' := known[last := cost];
    }
    if !p.isSolution(last) {
      var unused := heap.Push(Expand(cost, path, p.neighbours(last), 0, false), p.costAdd, map[]);
      return;
    }
    found' := found + [(cost, path)];
  }

  /** The old `best_first_search` run for at most `fuel` turns of its loop:
      what it yields, and whether it returned. */
  method BestFirstSearch<N(==,!new)>(
    initialCost: int,
    initialNode: N,
    neighbours: N -> seq<(int, N)>,
    isSolution: N -> bool,
    costAdd: (int, int) -> int,
    memoize: bool,
    fuel: nat)
    returns (found: seq<(int, Path<N>)>, returned: bool)
    ensures var p := Problem(initialCost, initialNode, neighbours, isSolution, costAdd, memoize);
            var s := Run(p, Start(p), fuel);
            found == s.found && returned == s.returned
  {
    var p := Problem(initialCost, initialNode, neighbours, isSolution, costAdd, memoize);
    var known: Memo<N> := map[];
    var heap := new SingleThread<N>();
    assert heap.State() == Empty();
    var unused := heap.Push(Seed(p), costAdd, map[]);
    found, returned := [], false;
    StartInv(p);
    assert State(heap.State(), known, found, returned) == Start(p);
    var turns: nat := 0;
    while !returned && turns < fuel
      invariant heap.Valid()
      invariant turns <= fuel
      invariant State(heap.State(), known, found, returned) == Run(p, Start(p), turns)
      decreases fuel - turns
    {
      RunInv(p, Start(p), turns);
      known, found, returned := Turn(p, heap, known, found);
      turns := turns + 1;
    }
    if turns < fuel {
      RunStays(p, Start(p), turns, fuel);
    }
  }
}
