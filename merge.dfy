/**
 * The lazy heap as a k-way merge: push some ascending lists first, then pop
 * until `pop` returns `None`, and every item of every list comes out exactly
 * once, in non-decreasing cost order.
 */
module Merge {
  import opened Cursors
  import opened LazyHeap

  /** Every iterator in the heap is a list iterator. */
  ghost predicate ItemsOnly<N>(f: Frontier<N>)
  {
    forall e :: e in f.entries ==> e.rest.Items?
  }

  /** What an entry still owes: its head and, for a list iterator, the rest
      of the list. */
  ghost function Owed<N>(e: Entry<N>): multiset<(int, Path<N>)>
  {
    multiset{(e.cost, e.value)} + if e.rest.Items? then multiset(ItemsLeft(e.rest)) else multiset{}
  }

  /** Everything a heap of list iterators has still to hand out. */
  ghost function Pending<N>(es: seq<Entry<N>>): multiset<(int, Path<N>)>
  {
    if es == [] then multiset{} else Owed(es[0]) + Pending(es[1..])
  }

  lemma {:induction false} PendingConcat<N>(a: seq<Entry<N>>, b: seq<Entry<N>>)
    ensures Pending(a + b) == Pending(a) + Pending(b)
  {
    if a == [] {
      assert a + b == b;
    } else {
      assert (a + b)[1..] == a[1..] + b;
      PendingConcat(a[1..], b);
    }
  }

  lemma PendingRemove<N>(es: seq<Entry<N>>, k: nat)
    requires k < |es|
    ensures Pending(es) == Pending(Remove(es, k)) + Owed(es[k])
  {
    var a, e, b := es[..k], es[k], es[k + 1..];
    assert es == a + ([e] + b);
    assert Remove(es, k) == a + b;
    PendingConcat(a, [e] + b);
    PendingConcat([e], b);
    PendingSingle(e);
    PendingConcat(a, b);
  }

  /** An item still pending is some entry's head or lies in its list. */
  lemma {:induction false} InPending<N>(es: seq<Entry<N>>, x: (int, Path<N>))
    requires x in Pending(es)
    ensures exists i :: 0 <= i < |es| && x in Owed(es[i])
  {
    if x !in Owed(es[0]) {
      InPending(es[1..], x);
      var i :| 0 <= i < |es[1..]| && x in Owed(es[1..][i]);
      assert es[1..][i] == es[i + 1];
    }
  }

  lemma PendingSingle<N>(e: Entry<N>)
    ensures Pending([e]) == Owed(e)
  {
    assert [e][1..] == [];
  }

  lemma PendingAppend<N>(es: seq<Entry<N>>, e: Entry<N>)
    ensures Pending(es + [e]) == Pending(es) + Owed(e)
  {
    PendingConcat(es, [e]);
    PendingSingle(e);
  }

  /** Advancing a list iterator moves one item from the list into the head
      of the entry it re-enters the heap as. */
  lemma OwedSplit<N>(e: Entry<N>, index: nat, costAdd: (int, int) -> int, memo: Memo<N>)
    requires e.rest.Items?
    ensures var p := Pull(e.rest, costAdd, memo);
            && p.memo == memo && p.rest.Items?
            && (p.item.None? ==> Owed(e) == multiset{(e.cost, e.value)})
            && (p.item.Some? ==>
                  Owed(e) == multiset{(e.cost, e.value)} + Owed(Entry(p.item.value.0, index, p.item.value.1, p.rest)))
  {
    var items, pos := e.rest.items, e.rest.pos;
    if pos < |items| {
      assert items[pos..] == [items[pos]] + items[pos + 1..];
    }
  }

  /** What an ordered entry of a list iterator owes costs at least its head. */
  lemma OwedAbove<N>(e: Entry<N>, costAdd: (int, int) -> int)
    requires e.rest.Items? && YieldsFrom(e.rest, e.cost, costAdd)
    ensures forall x :: x in Owed(e) ==> e.cost <= x.0
  {
    forall x | x in Owed(e) ensures e.cost <= x.0 {
      if x != (e.cost, e.value) {
        var j :| 0 <= j < |ItemsLeft(e.rest)| && ItemsLeft(e.rest)[j] == x;
        assert x == e.rest.items[e.rest.pos + j];
      }
    }
  }

  /** Popping a heap of list iterators hands out one pending item and leaves
      exactly the others pending. */
  lemma PopPending<N>(f: Frontier<N>, costAdd: (int, int) -> int, memo: Memo<N>)
    requires ItemsOnly(f) && f.entries != []
    ensures var r := AfterPop(f, costAdd, memo);
            && r.item.Some? && ItemsOnly(r.frontier) && r.memo == memo
            && Pending(f.entries) == Pending(r.frontier.entries) + multiset{r.item.value}
  {
    var k := MinPos(f.entries);
    var e := f.entries[k];
    assert e in f.entries;
    var rest := Remove(f.entries, k);
    RemoveSubset(f.entries, k);
    PendingRemove(f.entries, k);
    OwedSplit(e, f.index, costAdd, memo);
    var p := Pull(e.rest, costAdd, memo);
    var r := AfterPop(f, costAdd, memo);
    if p.item.Some? {
      var added := Entry(p.item.value.0, f.index, p.item.value.1, p.rest);
      assert r.frontier.entries == rest + [added];
      PendingAppend(rest, added);
    } else {
      assert r.frontier.entries == rest;
    }
  }

  /** The item `pop` hands out costs no more than anything still pending. */
  lemma PopLeastPending<N>(f: Frontier<N>, costAdd: (int, int) -> int, memo: Memo<N>)
    requires ItemsOnly(f) && Ordered(f, costAdd) && f.entries != []
    ensures var r := AfterPop(f, costAdd, memo);
            r.item.Some? && forall x :: x in Pending(f.entries) ==> r.item.value.0 <= x.0
  {
    var r := AfterPop(f, costAdd, memo);
    PopFloor(f, costAdd, memo);
    var lo := r.item.value.0;
    forall x | x in Pending(f.entries) ensures lo <= x.0 {
      InPending(f.entries, x);
      var i :| 0 <= i < |f.entries| && x in Owed(f.entries[i]);
      var e := f.entries[i];
      assert e in f.entries;
      OwedAbove(e, costAdd);
    }
  }

  /** Pop until `pop` returns `None`, collecting what comes out. */
  ghost function Drain<N>(f: Frontier<N>, costAdd: (int, int) -> int, memo: Memo<N>): (out: seq<(int, Path<N>)>)
    requires ItemsOnly(f)
    ensures |out| == |Pending(f.entries)|
    decreases |Pending(f.entries)|
  {
    if f.entries == [] then []
    else
      var r := AfterPop(f, costAdd, memo);
      PopPending(f, costAdd, memo);
      [r.item.value] + Drain(r.frontier, costAdd, r.memo)
  }

  lemma ConsAscending<T>(x: (int, T), tail: seq<(int, T)>)
    requires Ascending(tail)
    requires forall y :: y in multiset(tail) ==> x.0 <= y.0
    ensures Ascending([x] + tail)
  {
    forall j | 0 <= j < |tail| ensures x.0 <= tail[j].0 {
      assert tail[j] in multiset(tail);
    }
    assert forall i :: 0 < i <= |tail| ==> ([x] + tail)[i] == tail[i - 1];
  }

  /** Draining a heap of ascending list iterators hands out everything
      pending, each item once, in non-decreasing cost order. */
  lemma {:induction false} DrainMerges<N>(f: Frontier<N>, costAdd: (int, int) -> int, memo: Memo<N>)
    requires ItemsOnly(f) && Ordered(f, costAdd)
    ensures multiset(Drain(f, costAdd, memo)) == Pending(f.entries)
    ensures Ascending(Drain(f, costAdd, memo))
    decreases |Pending(f.entries)|
  {
    if f.entries != [] {
      var r := AfterPop(f, costAdd, memo);
      PopPending(f, costAdd, memo);
      PopLeastPending(f, costAdd, memo);
      PopFloor(f, costAdd, memo);
      PopOrdered(f, r.item.value.0, costAdd, memo);
      DrainMerges(r.frontier, costAdd, r.memo);
      var tail := Drain(r.frontier, costAdd, r.memo);
      assert Drain(f, costAdd, memo) == [r.item.value] + tail;
      ConsAscending(r.item.value, tail);
    }
  }

  /** `push` each list in turn, as a added list iterator. */
  ghost function PushAll<N>(f: Frontier<N>, lists: seq<seq<(int, Path<N>)>>, costAdd: (int, int) -> int, memo: Memo<N>): Frontier<N>
    decreases |lists|
  {
    if lists == [] then f
    else PushAll(AfterPush(f, Items(lists[0], 0), costAdd, memo).0, lists[1..], costAdd, memo)
  }

  /** All items of all lists, counted with multiplicity. */
  ghost function AllItems<N>(lists: seq<seq<(int, Path<N>)>>): multiset<(int, Path<N>)>
  {
    if lists == [] then multiset{} else multiset(lists[0]) + AllItems(lists[1..])
  }

  /** An ascending list, read from the start, yields from its head's cost on. */
  lemma ListYields<N>(s: seq<(int, Path<N>)>, costAdd: (int, int) -> int)
    requires Ascending(s) && s != []
    ensures YieldsFrom(Items(s, 0), s[0].0, costAdd)
  {
    forall i | 0 <= i < |s| ensures s[0].0 <= s[i].0 {
      if i > 0 { assert Ascending(s); }
    }
  }

  /** What the entry of a list pushed whole still owes is the whole list. */
  lemma ListOwed<N>(s: seq<(int, Path<N>)>, index: nat)
    requires s != []
    ensures Owed(Entry(s[0].0, index, s[0].1, Items(s, 1))) == multiset(s)
  {
    assert s == [s[0]] + s[1..];
    assert ItemsLeft(Items(s, 1)) == s[1..];
  }

  /** Pushing one ascending list adds exactly its items to what is pending. */
  lemma PushListPending<N>(f: Frontier<N>, s: seq<(int, Path<N>)>, costAdd: (int, int) -> int, memo: Memo<N>)
    requires ItemsOnly(f) && Ordered(f, costAdd) && Ascending(s)
    ensures var g := AfterPush(f, Items(s, 0), costAdd, memo).0;
            ItemsOnly(g) && Ordered(g, costAdd) && Pending(g.entries) == Pending(f.entries) + multiset(s)
  {
    var c := Items(s, 0);
    if s != [] {
      ListYields(s, costAdd);
      PushOrdered(f, c, s[0].0, costAdd, memo);
      var added := Entry(s[0].0, f.index, s[0].1, Items(s, 1));
      assert AfterPush(f, c, costAdd, memo).0.entries == f.entries + [added];
      PendingAppend(f.entries, added);
      ListOwed(s, f.index);
    } else {
      assert AfterPush(f, c, costAdd, memo).0 == f;
    }
  }

  lemma {:induction false} PushAllPending<N>(f: Frontier<N>, lists: seq<seq<(int, Path<N>)>>, costAdd: (int, int) -> int, memo: Memo<N>)
    requires ItemsOnly(f) && Ordered(f, costAdd)
    requires forall i :: 0 <= i < |lists| ==> Ascending(lists[i])
    ensures var g := PushAll(f, lists, costAdd, memo);
            ItemsOnly(g) && Ordered(g, costAdd) && Pending(g.entries) == Pending(f.entries) + AllItems(lists)
    decreases |lists|
  {
    if lists != [] {
      var g := AfterPush(f, Items(lists[0], 0), costAdd, memo).0;
      PushListPending(f, lists[0], costAdd, memo);
      assert forall i :: 0 <= i < |lists[1..]| ==> Ascending(lists[1..][i]) by {
        forall i | 0 <= i < |lists[1..]| ensures Ascending(lists[1..][i]) {
          assert lists[1..][i] == lists[i + 1];
        }
      }
      PushAllPending(g, lists[1..], costAdd, memo);
    }
  }

  /** The k-way merge: after pushing ascending lists into an empty heap,
      popping until `None` returns every item of every list exactly once, in
      non-decreasing cost order. */
  lemma MergeOfAscendingLists<N>(lists: seq<seq<(int, Path<N>)>>, costAdd: (int, int) -> int, memo: Memo<N>)
    requires forall i :: 0 <= i < |lists| ==> Ascending(lists[i])
    ensures ItemsOnly(PushAll(Empty(), lists, costAdd, memo))
    ensures var out := Drain(PushAll(Empty(), lists, costAdd, memo), costAdd, memo);
            multiset(out) == AllItems(lists) && Ascending(out)
  {
    var g := PushAll(Empty(), lists, costAdd, memo);
    PushAllPending(Empty(), lists, costAdd, memo);
    DrainMerges(g, costAdd, memo);
  }
}
