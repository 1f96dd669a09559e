/**
 * The single-thread lazy heap: a min-heap whose entries are sorted
 * iterators rather than items. Only the head of each iterator occupies the
 * heap; popping an entry hands out its head and re-inserts the iterator
 * under its next item, so draining the heap merges the iterators lazily.
 * Entries are ordered by (cost, insertion index); the index comes from a
 * counter that only grows, so equal costs leave the heap first in, first out.
 *
 * The heap is kept as a sequence of entries. Python's `heappush` and
 * `heappop` keep the list in heap order; only their contract matters here
 * (insert an entry; remove the least one), so an insertion appends and a
 * removal takes out the least entry wherever it sits.
 */
module LazyHeap {
  import opened Cursors

  /** A heap entry `(cost, index, node, rest_iterator)`: the iterator's
      current head, the index it was inserted under, and the iterator. */
  datatype Entry<N> = Entry(cost: int, index: nat, value: Path<N>, rest: Cursor<N>)

  /** The heap's state: the list `heap` and the counter `index`. */
  datatype Frontier<N> = Frontier(entries: seq<Entry<N>>, index: nat)

  /** What `pop` gives back, with the heap and memo it leaves behind. */
  datatype Popped<N> = Popped(item: Option<(int, Path<N>)>, frontier: Frontier<N>, memo: Memo<N>)

  /** Which implementation `LazyHeap.new(n_thread)` builds. */
  datatype Variant = SingleThreaded | Multithreaded(threads: int)

  /** The factory: a non-positive thread count selects the single-thread heap. */
  function New(nThread: int): (v: Variant)
    ensures v.SingleThreaded? <==> nThread <= 0
    ensures v.Multithreaded? ==> v.threads == nThread
  {
    if nThread <= 0 then SingleThreaded else Multithreaded(nThread)
  }

  function Empty<N>(): Frontier<N>
  {
    Frontier([], 0)
  }

  /** Python's tuple order on entries, which never gets past (cost, index). */
  predicate NoLater<N>(a: Entry<N>, b: Entry<N>)
  {
    a.cost < b.cost || (a.cost == b.cost && a.index <= b.index)
  }

  ghost predicate IsMin<N>(es: seq<Entry<N>>, k: int)
  {
    0 <= k < |es| && forall j :: 0 <= j < |es| ==> NoLater(es[k], es[j])
  }

  /** The invariant of the counter: every entry's index is below it, and no
      two entries share an index. */
  ghost predicate WellFormed<N>(f: Frontier<N>)
  {
    && (forall i :: 0 <= i < |f.entries| ==> f.entries[i].index < f.index)
    && (forall i, j :: 0 <= i < j < |f.entries| ==> f.entries[i].index != f.entries[j].index)
  }

  /** The position of a least entry. */
  ghost function MinPos<N>(es: seq<Entry<N>>): (k: nat)
    requires |es| > 0
    ensures IsMin(es, k)
  {
    if |es| == 1 then 0
    else
      var k := 1 + MinPos(es[1..]);
      if NoLater(es[0], es[k]) then 0 else k
  }

  /** With distinct indices there is only one least entry. */
  lemma MinUnique<N>(es: seq<Entry<N>>, k: int, k': int)
    requires forall i, j :: 0 <= i < j < |es| ==> es[i].index != es[j].index
    requires IsMin(es, k) && IsMin(es, k')
    ensures k == k'
  {
    assert NoLater(es[k], es[k']) && NoLater(es[k'], es[k]);
  }

  /** `heappop`'s search for the least entry. */
  method MinIndex<N>(es: seq<Entry<N>>) returns (k: nat)
    requires |es| > 0
    ensures IsMin(es, k)
  {
    k := 0;
    var i := 1;
    while i < |es|
      invariant 1 <= i <= |es| && k < i
      invariant forall j :: 0 <= j < i ==> NoLater(es[k], es[j])
    {
      if !NoLater(es[k], es[i]) {
        k := i;
      }
      i := i + 1;
    }
  }

  function Remove<T>(s: seq<T>, k: nat): seq<T>
    requires k < |s|
  {
    s[..k] + s[k + 1..]
  }

  /** Insert what was pulled from an iterator: nothing if it is exhausted,
      else its head under the current index, and the counter moves on. */
  function Insert<N>(f: Frontier<N>, p: Pulled<N>): Frontier<N>
  {
    if p.item.None? then f
    else Frontier(f.entries + [Entry(p.item.value.0, f.index, p.item.value.1, p.rest)], f.index + 1)
  }

  /** `push(sorted_iterator)`: the heap and memo afterwards. */
  ghost function AfterPush<N>(f: Frontier<N>, c: Cursor<N>, costAdd: (int, int) -> int, memo: Memo<N>): (r: (Frontier<N>, Memo<N>))
    ensures f.entries <= r.0.entries && |r.0.entries| <= |f.entries| + 1
    ensures r.0.index == f.index + (|r.0.entries| - |f.entries|)
  {
    var p := Pull(c, costAdd, memo);
    (Insert(f, p), p.memo)
  }

  /** `pop()`: the least entry's `(cost, node)`, and the heap with that entry
      replaced by its iterator's next item, or dropped if the iterator is done. */
  ghost function AfterPop<N>(f: Frontier<N>, costAdd: (int, int) -> int, memo: Memo<N>): (r: Popped<N>)
    ensures r.item.None? <==> f.entries == []
    ensures r.item.None? ==> r.frontier == f && r.memo == memo
    ensures r.item.Some? ==> |r.frontier.entries| == |f.entries| + (r.frontier.index - f.index) - 1
    ensures f.index <= r.frontier.index <= f.index + 1
  {
    if f.entries == [] then Popped(None, f, memo)
    else
      var k := MinPos(f.entries);
      var e := f.entries[k];
      var p := Pull(e.rest, costAdd, memo);
      Popped(Some((e.cost, e.value)), Insert(Frontier(Remove(f.entries, k), f.index), p), p.memo)
  }

  class SingleThread<N(==)> {
    var heap: seq<Entry<N>>
    var index: nat
    /** For each entry, which pushed iterator it belongs to. */
    ghost var owner: seq<nat>
    /** How many iterators `push` has accepted. */
    ghost var streams: nat

    /** Besides the counter's invariant: the heap holds at most one entry
        per iterator ever pushed. */
    ghost predicate Valid()
      reads this
    {
      && WellFormed(Frontier(heap, index))
      && |owner| == |heap|
      && (forall i :: 0 <= i < |owner| ==> owner[i] < streams)
      && (forall i, j :: 0 <= i < j < |owner| ==> owner[i] != owner[j])
    }

    ghost function State(): Frontier<N>
      reads this
    {
      Frontier(heap, index)
    }

    constructor ()
      ensures Valid() && heap == [] && index == 0 && streams == 0
    {
      heap := [];
      index := 0;
      owner := [];
      streams := 0;
    }

    method Push(sortedIterator: Cursor<N>, costAdd: (int, int) -> int, memo: Memo<N>) returns (memo': Memo<N>)
      requires Valid()
      modifies this
      ensures Valid()
      ensures (State(), memo') == AfterPush(old(State()), sortedIterator, costAdd, memo)
      ensures var p := Pull(sortedIterator, costAdd, memo);
              if p.item.None? then
                heap == old(heap) && index == old(index) && owner == old(owner) && streams == old(streams)
              else
                && heap == old(heap) + [Entry(p.item.value.0, old(index), p.item.value.1, p.rest)]
                && index == old(index) + 1
                && owner == old(owner) + [old(streams)] && streams == old(streams) + 1
    {
      var p := Next(sortedIterator, costAdd, memo);
      memo' := p.memo;
      if p.item.Some? {
        heap := heap + [Entry(p.item.value.0, index, p.item.value.1, p.rest)];
        owner := owner + [streams];
        streams := streams + 1;
        index := index + 1;
      }
      // an exhausted iterator is dropped without a trace
    }

    method Pop(costAdd: (int, int) -> int, memo: Memo<N>) returns (item: Option<(int, Path<N>)>, memo': Memo<N>)
      requires Valid()
      modifies this
      ensures Valid()
      ensures Popped(item, State(), memo') == AfterPop(old(State()), costAdd, memo)
      ensures streams == old(streams)
      ensures old(heap) != [] ==>
        var k := MinPos(old(heap));
        || owner == Remove(old(owner), k)
        || owner == Remove(old(owner), k) + [old(owner)[k]]
    {
      if heap == [] {
        return None, memo;
      }
      var k := MinIndex(heap);
      MinUnique(heap, k, MinPos(heap));
      var e := heap[k];
      var p := Next(e.rest, costAdd, memo);
      WellFormedKept(State(), e.rest, costAdd, memo);
      OwnersKept(owner, k, streams, p.item.Some?);
      var f := Insert(Frontier(Remove(heap, k), index), p);
      heap, index := f.entries, f.index;
      owner := Remove(owner, k) + (if p.item.Some? then [owner[k]] else []);
      item := Some((e.cost, e.value));
      memo' := p.memo;
    }

    /** Nothing runs in the background, so there is nothing to stop. */
    method Stop()
      ensures heap == old(heap) && index == old(index)
    {
    }
  }

  /** Taking one element out of a list of distinct tags below `bound`, and
      possibly putting it back at the end, keeps the tags distinct and below
      `bound`. */
  lemma OwnersKept(s: seq<nat>, k: nat, bound: nat, back: bool)
    requires k < |s|
    requires forall i :: 0 <= i < |s| ==> s[i] < bound
    requires forall i, j :: 0 <= i < j < |s| ==> s[i] != s[j]
    ensures var r := Remove(s, k) + (if back then [s[k]] else []);
            && |r| == (if back then |s| else |s| - 1)
            && (forall i :: 0 <= i < |r| ==> r[i] < bound)
            && (forall i, j :: 0 <= i < j < |r| ==> r[i] != r[j])
  {
    var o := Remove(s, k);
    assert forall i :: 0 <= i < |o| ==> o[i] == s[if i < k then i else i + 1];
    var r := o + (if back then [s[k]] else []);
    assert forall i :: 0 <= i < |o| ==> r[i] == o[i];
  }

  // ---------------------------------------------------------------------------
  // Push and pop, one call at a time.

  /** Pushing an exhausted iterator changes nothing; pushing any other adds
      exactly its head under the current index and moves the counter by one. */
  lemma PushEffect<N>(f: Frontier<N>, c: Cursor<N>, costAdd: (int, int) -> int, memo: Memo<N>)
    ensures var p := Pull(c, costAdd, memo);
            var (f', memo') := AfterPush(f, c, costAdd, memo);
            && memo' == p.memo
            && (p.item.None? ==> f' == f)
            && (p.item.Some? ==>
                  && f'.entries == f.entries + [Entry(p.item.value.0, f.index, p.item.value.1, p.rest)]
                  && f'.index == f.index + 1)
  {
  }

  /** `pop` returns `None`, changing nothing, exactly when the heap is empty;
      otherwise it returns the cost and node of the entry least by
      (cost, index), which comes strictly before every other entry, so among
      equal costs the one inserted first. */
  lemma PopReturnsLeast<N>(f: Frontier<N>, costAdd: (int, int) -> int, memo: Memo<N>)
    requires WellFormed(f)
    ensures var r := AfterPop(f, costAdd, memo);
            && (r.item.None? <==> f.entries == [])
            && (r.item.None? ==> r.frontier == f && r.memo == memo)
            && (r.item.Some? ==>
                  exists k :: 0 <= k < |f.entries| && r.item.value == (f.entries[k].cost, f.entries[k].value)
                    && forall j :: 0 <= j < |f.entries| && j != k ==>
                         f.entries[k].cost < f.entries[j].cost
                         || (f.entries[k].cost == f.entries[j].cost && f.entries[k].index < f.entries[j].index))
  {
    if f.entries != [] {
      var k := MinPos(f.entries);
      forall j | 0 <= j < |f.entries| && j != k
        ensures f.entries[k].cost < f.entries[j].cost
                || (f.entries[k].cost == f.entries[j].cost && f.entries[k].index < f.entries[j].index)
      {
        if k < j {
          assert f.entries[k].index != f.entries[j].index;
        } else {
          assert f.entries[j].index != f.entries[k].index;
        }
      }
    }
  }

  /** After `pop` no other entry has changed: the popped iterator is either
      re-inserted once, under a fresh index and its next item (size kept), or
      dropped because it is exhausted (size down by one). */
  lemma PopEffect<N>(f: Frontier<N>, costAdd: (int, int) -> int, memo: Memo<N>)
    requires f.entries != []
    ensures var k := MinPos(f.entries);
            var e := f.entries[k];
            var p := Pull(e.rest, costAdd, memo);
            var r := AfterPop(f, costAdd, memo);
            && r.memo == p.memo
            && (p.item.None? ==>
                  r.frontier.entries == Remove(f.entries, k) && |r.frontier.entries| == |f.entries| - 1
                  && r.frontier.index == f.index)
            && (p.item.Some? ==>
                  && r.frontier.entries == Remove(f.entries, k) + [Entry(p.item.value.0, f.index, p.item.value.1, p.rest)]
                  && |r.frontier.entries| == |f.entries|
                  && r.frontier.index == f.index + 1)
  {
  }

  /** Inserting under the counter keeps the counter's invariant. */
  lemma InsertWellFormed<N>(f: Frontier<N>, p: Pulled<N>)
    requires WellFormed(f)
    ensures WellFormed(Insert(f, p)) && f.index <= Insert(f, p).index
  {
    if p.item.Some? {
      assert Insert(f, p).entries[|f.entries|].index == f.index;
    }
  }

  /** Taking an entry out keeps the counter's invariant. */
  lemma RemoveWellFormed<N>(f: Frontier<N>, k: nat)
    requires WellFormed(f) && k < |f.entries|
    ensures WellFormed(Frontier(Remove(f.entries, k), f.index))
  {
    var rest := Remove(f.entries, k);
    assert forall i :: 0 <= i < |rest| ==> rest[i] == f.entries[if i < k then i else i + 1];
  }

  /** Both operations keep the counter's invariant; the counter never goes
      back, and an index once handed out is never handed out again. */
  lemma WellFormedKept<N>(f: Frontier<N>, c: Cursor<N>, costAdd: (int, int) -> int, memo: Memo<N>)
    requires WellFormed(f)
    ensures var f' := AfterPush(f, c, costAdd, memo).0;
            WellFormed(f') && f.index <= f'.index
    ensures var f' := AfterPop(f, costAdd, memo).frontier;
            WellFormed(f') && f.index <= f'.index
  {
    InsertWellFormed(f, Pull(c, costAdd, memo));
    if f.entries != [] {
      var k := MinPos(f.entries);
      RemoveWellFormed(f, k);
      InsertWellFormed(Frontier(Remove(f.entries, k), f.index), Pull(f.entries[k].rest, costAdd, memo));
    }
  }

  // ---------------------------------------------------------------------------
  // Order: with ascending iterators, what `pop` returns never goes down.

  /** Every entry's iterator yields, from here on, no less than the entry's
      own cost, in ascending order. */
  ghost predicate Ordered<N>(f: Frontier<N>, costAdd: (int, int) -> int)
  {
    forall e :: e in f.entries ==> YieldsFrom(e.rest, e.cost, costAdd)
  }

  /** No entry costs less than `lo`. */
  ghost predicate Floor<N>(f: Frontier<N>, lo: int)
  {
    forall e :: e in f.entries ==> lo <= e.cost
  }

  lemma RemoveSubset<T>(s: seq<T>, k: nat)
    requires k < |s|
    ensures forall x :: x in Remove(s, k) ==> x in s
  {
    forall x | x in Remove(s, k) ensures x in s {
      var i :| 0 <= i < |Remove(s, k)| && Remove(s, k)[i] == x;
      if i < k { assert s[i] == x; } else { assert s[i + 1] == x; }
    }
  }

  /** Popping an ordered heap returns a cost no lower than any floor of the
      heap, and leaves an ordered heap of which that cost is a floor. */
  lemma PopOrdered<N>(f: Frontier<N>, lo: int, costAdd: (int, int) -> int, memo: Memo<N>)
    requires Ordered(f, costAdd) && Floor(f, lo)
    ensures var r := AfterPop(f, costAdd, memo);
            && Ordered(r.frontier, costAdd)
            && (r.item.Some? ==> lo <= r.item.value.0 && Floor(r.frontier, r.item.value.0))
  {
    if f.entries != [] {
      var k := MinPos(f.entries);
      var e := f.entries[k];
      var p := Pull(e.rest, costAdd, memo);
      var rest := Remove(f.entries, k);
      RemoveSubset(f.entries, k);
      assert e in f.entries;
      PullAscending(e.rest, e.cost, costAdd, memo);
      var r := AfterPop(f, costAdd, memo);
      forall x | x in r.frontier.entries
        ensures YieldsFrom(x.rest, x.cost, costAdd) && e.cost <= x.cost
      {
        if x in rest {
          var i :| 0 <= i < |f.entries| && f.entries[i] == x;
          assert NoLater(e, f.entries[i]);
        }
      }
    }
  }

  /** Pushing an ascending iterator keeps the heap ordered, and keeps any
      floor that the iterator itself respects. */
  lemma PushOrdered<N>(f: Frontier<N>, c: Cursor<N>, lo: int, costAdd: (int, int) -> int, memo: Memo<N>)
    requires Ordered(f, costAdd) && YieldsFrom(c, lo, costAdd)
    ensures var f' := AfterPush(f, c, costAdd, memo).0;
            Ordered(f', costAdd) && (Floor(f, lo) ==> Floor(f', lo))
  {
    PullAscending(c, lo, costAdd, memo);
  }

  /** The cost `pop` returns is a floor of the heap it pops from. */
  lemma PopFloor<N>(f: Frontier<N>, costAdd: (int, int) -> int, memo: Memo<N>)
    requires f.entries != []
    ensures AfterPop(f, costAdd, memo).item.Some?
    ensures Floor(f, AfterPop(f, costAdd, memo).item.value.0)
  {
    var k := MinPos(f.entries);
    forall e | e in f.entries ensures f.entries[k].cost <= e.cost {
      var i :| 0 <= i < |f.entries| && f.entries[i] == e;
      assert NoLater(f.entries[k], f.entries[i]);
    }
  }

  /** Two pops in a row from an ordered heap come out in non-decreasing cost. */
  lemma PopsNonDecreasing<N>(f: Frontier<N>, costAdd: (int, int) -> int, memo: Memo<N>)
    requires Ordered(f, costAdd)
    ensures var r1 := AfterPop(f, costAdd, memo);
            var r2 := AfterPop(r1.frontier, costAdd, r1.memo);
            r1.item.Some? && r2.item.Some? ==> r1.item.value.0 <= r2.item.value.0
  {
    var r1 := AfterPop(f, costAdd, memo);
    if r1.item.Some? {
      PopFloor(f, costAdd, memo);
      PopOrdered(f, r1.item.value.0, costAdd, memo);
      PopOrdered(r1.frontier, r1.item.value.0, costAdd, r1.memo);
    }
  }

  // ---------------------------------------------------------------------------
  // Paths: a heap of rooted iterators only ever hands out rooted paths.

  ghost predicate Rooted<N>(f: Frontier<N>, root: N)
  {
    forall e :: e in f.entries ==> RootedPath(e.value, root) && RootedCursor(e.rest, root)
  }

  /** Every expansion iterator in the heap checks the memo, or every one does not. */
  ghost predicate Pruning<N>(f: Frontier<N>, prune: bool)
  {
    forall e :: e in f.entries && e.rest.Expand? ==> e.rest.prune == prune
  }

  lemma PopRooted<N>(f: Frontier<N>, root: N, prune: bool, costAdd: (int, int) -> int, memo: Memo<N>)
    requires Rooted(f, root) && Pruning(f, prune)
    ensures var r := AfterPop(f, costAdd, memo);
            && Rooted(r.frontier, root) && Pruning(r.frontier, prune)
            && (r.item.Some? ==> RootedPath(r.item.value.1, root))
  {
    if f.entries != [] {
      var k := MinPos(f.entries);
      assert f.entries[k] in f.entries;
      RemoveSubset(f.entries, k);
      PullRooted(f.entries[k].rest, root, costAdd, memo);
    }
  }

  lemma PushRooted<N>(f: Frontier<N>, c: Cursor<N>, root: N, prune: bool, costAdd: (int, int) -> int, memo: Memo<N>)
    requires Rooted(f, root) && Pruning(f, prune) && RootedCursor(c, root) && (c.Expand? ==> c.prune == prune)
    ensures var f' := AfterPush(f, c, costAdd, memo).0;
            Rooted(f', root) && Pruning(f', prune)
  {
    PullRooted(c, root, costAdd, memo);
  }

  /** Every entry's `(cost, path)` is a walk, and so is everything its
      iterator can still produce. */
  ghost predicate Walks<N>(f: Frontier<N>, g: Graph<N>)
  {
    forall e :: e in f.entries ==> Walk(g, e.cost, e.value) && WalkCursor(g, e.rest)
  }

  /** A heap of walks pops a walk and stays a heap of walks. */
  lemma PopWalks<N>(f: Frontier<N>, g: Graph<N>, memo: Memo<N>)
    requires Walks(f, g)
    ensures var r := AfterPop(f, g.costAdd, memo);
            && Walks(r.frontier, g)
            && (r.item.Some? ==> Walk(g, r.item.value.0, r.item.value.1))
  {
    if f.entries != [] {
      var k := MinPos(f.entries);
      assert f.entries[k] in f.entries;
      RemoveSubset(f.entries, k);
      PullWalks(g, f.entries[k].rest, memo);
    }
  }

  /** Pushing a cursor of walks keeps a heap of walks. */
  lemma PushWalks<N>(f: Frontier<N>, c: Cursor<N>, g: Graph<N>, memo: Memo<N>)
    requires Walks(f, g) && WalkCursor(g, c)
    ensures Walks(AfterPush(f, c, g.costAdd, memo).0, g)
  {
    PullWalks(g, c, memo);
  }

  /** With no iterator in the heap checking the memo, push and pop leave it alone. */
  lemma MemoUntouched<N>(f: Frontier<N>, c: Cursor<N>, costAdd: (int, int) -> int, memo: Memo<N>)
    requires Pruning(f, false) && (c.Expand? ==> !c.prune)
    ensures AfterPush(f, c, costAdd, memo).1 == memo
    ensures AfterPop(f, costAdd, memo).memo == memo
  {
    PullMemo(c, costAdd, memo);
    if f.entries != [] {
      var k := MinPos(f.entries);
      assert f.entries[k] in f.entries;
      PullMemo(f.entries[k].rest, costAdd, memo);
    }
  }

  // ---------------------------------------------------------------------------
  // What is still to come out of the heap: an entry's head, or a candidate
  // its iterator has not reached yet.

  ghost predicate Upcoming<N>(f: Frontier<N>, costAdd: (int, int) -> int, x: (int, Path<N>))
  {
    exists e :: e in f.entries && ((e.cost, e.value) == x || Offers(e.rest, costAdd, x))
  }

  /** An ordered heap pops nothing dearer than what is still to come out of it. */
  lemma UpcomingBound<N>(f: Frontier<N>, costAdd: (int, int) -> int, memo: Memo<N>, x: (int, Path<N>))
    requires Ordered(f, costAdd) && Upcoming(f, costAdd, x)
    ensures AfterPop(f, costAdd, memo).item.Some? && AfterPop(f, costAdd, memo).item.value.0 <= x.0
  {
    var e :| e in f.entries && ((e.cost, e.value) == x || Offers(e.rest, costAdd, x));
    PopFloor(f, costAdd, memo);
    if (e.cost, e.value) != x {
      OffersAbove(e.rest, e.cost, costAdd, x);
    }
  }

  lemma RemoveKeeps<T>(s: seq<T>, k: nat)
    requires k < |s|
    ensures forall i :: 0 <= i < |s| && i != k ==> s[i] in Remove(s, k)
  {
    forall i | 0 <= i < |s| && i != k ensures s[i] in Remove(s, k) {
      if i < k {
        assert Remove(s, k)[i] == s[i];
      } else {
        assert Remove(s, k)[i - 1] == s[i];
      }
    }
  }

  /** With no iterator checking the memo, a pop either hands out what was
      still to come out or leaves it still to come. */
  lemma PopUpcoming<N>(f: Frontier<N>, costAdd: (int, int) -> int, memo: Memo<N>, x: (int, Path<N>))
    requires Pruning(f, false) && Upcoming(f, costAdd, x)
    ensures var r := AfterPop(f, costAdd, memo);
            r.item == Some(x) || Upcoming(r.frontier, costAdd, x)
  {
    var k := MinPos(f.entries);
    var e :| e in f.entries && ((e.cost, e.value) == x || Offers(e.rest, costAdd, x));
    var r := AfterPop(f, costAdd, memo);
    var i :| 0 <= i < |f.entries| && f.entries[i] == e;
    if i != k {
      RemoveKeeps(f.entries, k);
      assert e in r.frontier.entries;
    } else {
      if (e.cost, e.value) != x {
        PullOffers(e.rest, costAdd, memo, x);
        var p := Pull(e.rest, costAdd, memo);
        assert Entry(p.item.value.0, f.index, p.item.value.1, p.rest) in r.frontier.entries;
      }
    }
  }

  /** Pushing keeps what was still to come, and adds what the pushed
      iterator offers when it does not check the memo. */
  lemma PushUpcoming<N>(f: Frontier<N>, c: Cursor<N>, costAdd: (int, int) -> int, memo: Memo<N>, x: (int, Path<N>))
    requires (c.Expand? ==> !c.prune) && (Upcoming(f, costAdd, x) || Offers(c, costAdd, x))
    ensures Upcoming(AfterPush(f, c, costAdd, memo).0, costAdd, x)
  {
    var f' := AfterPush(f, c, costAdd, memo).0;
    if Upcoming(f, costAdd, x) {
      var e :| e in f.entries && ((e.cost, e.value) == x || Offers(e.rest, costAdd, x));
      assert e in f'.entries;
    } else {
      PullOffers(c, costAdd, memo, x);
      var p := Pull(c, costAdd, memo);
      assert Entry(p.item.value.0, f.index, p.item.value.1, p.rest) in f'.entries;
    }
  }

  /** Some prefix of the edge choices `steps` leads from the root to
      something still to come out of the heap. */
  ghost predicate Covers<N>(f: Frontier<N>, g: Graph<N>, steps: seq<nat>)
  {
    exists k :: 0 <= k <= |steps| && UpcomingAt(f, g, steps[..k])
  }

  ghost predicate UpcomingAt<N>(f: Frontier<N>, g: Graph<N>, steps: seq<nat>)
  {
    var r := Follow(g, g.rootCost, [g.root], steps);
    r.Some? && Upcoming(f, g.costAdd, r.value)
  }

  /** A heap covering anything is not empty. */
  lemma CoversNonEmpty<N>(f: Frontier<N>, g: Graph<N>, steps: seq<nat>)
    ensures Covers(f, g, steps) ==> f.entries != []
  {
    if Covers(f, g, steps) {
      var k :| 0 <= k <= |steps| && UpcomingAt(f, g, steps[..k]);
    }
  }

  /** A heap that covers the walk `steps` and checks no memo pops either
      that walk itself, or a walk whose expansion, once pushed, covers it
      again. */
  lemma PopCovers<N>(f: Frontier<N>, g: Graph<N>, memo: Memo<N>, steps: seq<nat>)
    requires Walks(f, g) && Pruning(f, false) && Covers(f, g, steps)
    requires Follow(g, g.rootCost, [g.root], steps).Some?
    ensures var r := AfterPop(f, g.costAdd, memo);
            && r.item.Some? && |r.item.value.1| > 0
            && (r.item == Follow(g, g.rootCost, [g.root], steps)
                || var (c, q) := r.item.value;
                   Covers(AfterPush(r.frontier, Expand(c, q, g.neighbours(Last(q)), 0, false), g.costAdd, r.memo).0, g, steps))
  {
    var k :| 0 <= k <= |steps| && UpcomingAt(f, g, steps[..k]);
    var x := Follow(g, g.rootCost, [g.root], steps[..k]).value;
    PopWalks(f, g, memo);
    PopUpcoming(f, g.costAdd, memo, x);
    var r := AfterPop(f, g.costAdd, memo);
    var (c, q) := r.item.value;
    var next := Expand(c, q, g.neighbours(Last(q)), 0, false);
    var f' := AfterPush(r.frontier, next, g.costAdd, r.memo).0;
    if r.item != Some(x) {
      PushUpcoming(r.frontier, next, g.costAdd, r.memo, x);
      assert UpcomingAt(f', g, steps[..k]);
    } else if k == |steps| {
      assert steps[..k] == steps;
    } else {
      PushCovers(r.frontier, g, r.memo, steps, k, c, q);
    }
  }

  /** Pushing the expansion of the walk that the first `k` choices of
      `steps` lead to covers `steps` one edge further along. */
  lemma PushCovers<N>(f: Frontier<N>, g: Graph<N>, memo: Memo<N>, steps: seq<nat>, k: nat, c: int, q: Path<N>)
    requires k < |steps| && Follow(g, g.rootCost, [g.root], steps).Some?
    requires Follow(g, g.rootCost, [g.root], steps[..k]) == Some((c, q))
    ensures |q| > 0
    ensures Covers(AfterPush(f, Expand(c, q, g.neighbours(Last(q)), 0, false), g.costAdd, memo).0, g, steps)
  {
    var next := Expand(c, q, g.neighbours(Last(q)), 0, false);
    assert steps[..k + 1] == steps[..k] + [steps[k]];
    FollowAppend(g, g.rootCost, [g.root], steps[..k], steps[k]);
    FollowSplit(g, g.rootCost, [g.root], steps, k + 1);
    ExpansionOffers(g, c, q, false, steps[k]);
    PushUpcoming(f, next, g.costAdd, memo, Edge(g, c, q, steps[k]).value);
    assert UpcomingAt(AfterPush(f, next, g.costAdd, memo).0, g, steps[..k + 1]);
  }

  /** An ordered heap that covers the walk `steps` pops nothing dearer than
      that walk, when no edge lowers a cost. */
  lemma PopBelowCovered<N(!new)>(f: Frontier<N>, g: Graph<N>, memo: Memo<N>, steps: seq<nat>)
    requires Ordered(f, g.costAdd) && NoShortcut(g.neighbours, g.costAdd) && Covers(f, g, steps)
    requires Follow(g, g.rootCost, [g.root], steps).Some?
    ensures var r := AfterPop(f, g.costAdd, memo);
            r.item.Some? && r.item.value.0 <= Follow(g, g.rootCost, [g.root], steps).value.0
  {
    var k :| 0 <= k <= |steps| && UpcomingAt(f, g, steps[..k]);
    var x := Follow(g, g.rootCost, [g.root], steps[..k]).value;
    UpcomingBound(f, g.costAdd, memo, x);
    FollowSplit(g, g.rootCost, [g.root], steps, k);
    FollowGrows(g, x.0, x.1, steps[k..]);
  }

  // ---------------------------------------------------------------------------
  // The memo: with memoisation on, it has seen everything in the heap.

  /** Every entry that has left the start node has its last node in the memo
      at no more than its cost, and every iterator is one the memo accounts for. */
  ghost predicate Memoised<N>(f: Frontier<N>, memo: Memo<N>)
  {
    forall e :: e in f.entries ==>
      MemoCursor(e.rest) && (|e.value| > 1 ==> Dominated(memo, Last(e.value), e.cost))
  }

  /** `memo'` keeps every node of `memo`, at the same or a lower cost. */
  ghost predicate Lowers<N>(memo: Memo<N>, memo': Memo<N>)
  {
    forall n :: n in memo ==> n in memo' && memo'[n] <= memo[n]
  }

  /** A pop keeps the heap memoised, only lowers the memo, and what it
      returns past the start node is in the memo at no more than its cost. */
  lemma PopMemoised<N>(f: Frontier<N>, costAdd: (int, int) -> int, memo: Memo<N>)
    requires Memoised(f, memo)
    ensures var r := AfterPop(f, costAdd, memo);
            && Memoised(r.frontier, r.memo) && Lowers(memo, r.memo)
            && (r.item.Some? && |r.item.value.1| > 1 ==> Dominated(r.memo, Last(r.item.value.1), r.item.value.0))
  {
    if f.entries != [] {
      var k := MinPos(f.entries);
      assert f.entries[k] in f.entries;
      RemoveSubset(f.entries, k);
      PullMemo(f.entries[k].rest, costAdd, memo);
      PullMemoCursor(f.entries[k].rest, costAdd, memo);
    }
  }

  /** Pushing an iterator the memo accounts for keeps the heap memoised and
      only lowers the memo. */
  lemma PushMemoised<N>(f: Frontier<N>, c: Cursor<N>, costAdd: (int, int) -> int, memo: Memo<N>)
    requires Memoised(f, memo) && MemoCursor(c)
    ensures var r := AfterPush(f, c, costAdd, memo);
            Memoised(r.0, r.1) && Lowers(memo, r.1)
  {
    PullMemo(c, costAdd, memo);
    PullMemoCursor(c, costAdd, memo);
  }
}
