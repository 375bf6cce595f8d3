/**
 The series table of a capped window: entries are objects that carry their own
 slot in the eviction heap, and the least recently seen one makes room.
 */
module SeriesCap {
  import opened Order
  import opened RankHeap

  class SeriesEntry {
    const key: string
    var lastSeen: nat
    var heapIndex: int
    var count: nat

    constructor (k: string, seen: nat)
      ensures key == k && lastSeen == seen && heapIndex == -1 && count == 0
    {
      key, lastSeen, heapIndex, count := k, seen, -1, 0;
    }

    function Rank(): (r: Rank)
      reads `lastSeen
    {
      RankHeap.Rank(lastSeen, key)
    }
  }

  ghost function Ranks(h: seq<SeriesEntry>): (r: seq<Rank>)
    reads h`lastSeen
    ensures |r| == |h| && forall i :: 0 <= i < |h| ==> r[i] == h[i].Rank()
  {
    if h == [] then [] else Ranks(h[..|h| - 1]) + [h[|h| - 1].Rank()]
  }

  /** Every entry knows its slot. */
  ghost predicate Linked(h: seq<SeriesEntry>)
    reads h`heapIndex
  {
    forall i :: 0 <= i < |h| ==> h[i].heapIndex == i
  }

  class EvictionHeap {
    var h: seq<SeriesEntry>

    /** The objects in the heap. */
    ghost var repr: set<SeriesEntry>

    ghost predicate Owned()
      reads `h, `repr
    {
      repr == set e | e in h
    }

    constructor ()
      ensures h == [] && repr == {} && Valid()
    {
      h, repr := [], {};
      new;
      assert Ranks(h) == [];
    }

    /** `Swap`: exchanges two slots and both back pointers. */
    method SwapSlots(i: nat, j: nat)
      requires i < |h| && j < |h| && Linked(h) && Owned()
      modifies `h, repr`heapIndex
      ensures Owned()
      ensures h == old(h[i := h[j]][j := h[i]]) && Linked(h)
      ensures Ranks(h) == Swap(old(Ranks(h)), i, j)
      ensures multiset(h) == old(multiset(h))
    {
      hide Ranks;
      SameObjects(h, h[i := h[j]][j := h[i]]);
      h := h[i := h[j]][j := h[i]];
      h[i].heapIndex := i;
      h[j].heapIndex := j;
    }

    /** `up`: lets the entry at `start` rise to its place. */
    method SiftUp(start: nat)
      requires start < |h| && Linked(h) && Owned() && BrokenAbove(Ranks(h), start)
      modifies `h, repr`heapIndex
      ensures Owned()
      ensures Linked(h) && IsHeap(Ranks(h)) && multiset(h) == old(multiset(h))
    {
      hide Ranks, BrokenAbove, Linked, Owned;
      var j: nat := start;
      while j > 0 && Before(h[j].Rank(), h[Up(j)].Rank())
        invariant j < |h| && Linked(h) && BrokenAbove(Ranks(h), j)
        invariant multiset(h) == old(multiset(h)) && Owned()
        decreases j
      {
        UpStep(Ranks(h), j);
        SwapSlots(Up(j), j);
        j := Up(j);
      }
      AboveDone(Ranks(h), j);
    }

    /** `down` over the first `n` slots; tells whether the entry moved. */
    method SiftDown(start: nat, n: nat) returns (moved: bool)
      requires start <= n <= |h| && Linked(h) && Owned() && BrokenAt(Ranks(h)[..n], start)
      modifies `h, repr`heapIndex
      ensures Owned()
      ensures Linked(h) && multiset(h) == old(multiset(h)) && |h| == old(|h|)
      ensures forall k :: n <= k < |h| ==> h[k] == old(h[k])
      ensures moved ==> IsHeap(Ranks(h)[..n])
      ensures !moved ==> h == old(h) && forall k :: 0 < k < n && Up(k) == start ==> Edge(Ranks(h)[..n], k)
    {
      hide Ranks, Linked, Owned, BrokenAt, BrokenBelow;
      var i: nat := start;
      moved := false;
      while 2 * i + 1 < n
        invariant start <= i <= n <= |h| == old(|h|) && Linked(h) && multiset(h) == old(multiset(h))
        invariant Owned() && forall k :: n <= k < |h| ==> h[k] == old(h[k])
        invariant !moved ==> i == start && h == old(h)
        invariant BrokenAt(Ranks(h)[..n], i) && (moved ==> BrokenBelow(Ranks(h)[..n], i))
        decreases n - i
      {
        ghost var r := Ranks(h)[..n];
        var c := 2 * i + 1;
        if 2 * i + 2 < n && Before(h[2 * i + 2].Rank(), h[2 * i + 1].Rank()) {
          c := 2 * i + 2;
        }
        ChooseChild(r, i, c);
        if !Before(h[c].Rank(), h[i].Rank()) {
          DownDone(r, i, c);
          FinishDown(r, i, moved);
          return;
        }
        DownStep(r, i, c);
        BelowBreaks(Swap(r, i, c), c);
        SwapPrefix(Ranks(h), i, c, n);
        SwapSlots(i, c);
        i := c;
        moved := true;
      }
      assert forall k :: 0 < k < n && Up(k) == i ==> false;
      FinishDown(Ranks(h)[..n], i, moved);
    }

    ghost predicate Valid()
      reads `h, `repr, repr`heapIndex, repr`lastSeen
    {
      Owned() && Linked(h) && IsHeap(Ranks(h))
    }

    lemma NotOwned(e: SeriesEntry)
      requires Valid() && e !in repr
      ensures e !in h
    {
    }

    method Push(e: SeriesEntry)
      requires Valid() && e !in h
      modifies this, repr`heapIndex, e`heapIndex
      ensures Valid() && multiset(h) == old(multiset(h)) + multiset{e} && repr == old(repr) + {e}
    {
      hide Ranks, BrokenAbove;
      assert Ranks(h + [e]) == Ranks(h) + [e.Rank()];
      AppendBreaks(Ranks(h), e.Rank());
      e.heapIndex := |h|;
      h := h + [e];
      repr := repr + {e};
      SiftUp(|h| - 1);
    }

    /** Takes out the entry every other one comes after. */
    method Pop() returns (e: SeriesEntry)
      requires Valid() && h != []
      modifies this, repr`heapIndex
      ensures Valid() && e == old(h[0]) && e.heapIndex == -1 && e !in h
      ensures old(multiset(h)) == multiset(h) + multiset{e} && repr == old(repr) - {e}
    {
      hide Ranks, BrokenAt, Linked, Owned, IsHeap;
      var n := |h| - 1;
      ReplaceRootBreaks(Ranks(h));
      SwapSlots(0, n);
      var moved := SiftDown(0, n);
      if !moved {
        RootFixed(Ranks(h)[..n]);
      }
      e := RemoveLast();
    }

    method RemoveLast() returns (e: SeriesEntry)
      requires h != [] && Owned() && Linked(h) && IsHeap(Ranks(h)[..|h| - 1])
      modifies this, repr`heapIndex
      ensures Valid() && e == old(h[|h| - 1]) && e.heapIndex == -1 && e !in h
      ensures old(multiset(h)) == multiset(h) + multiset{e} && repr == old(repr) - {e}
    {
      hide Ranks, IsHeap;
      var n := |h| - 1;
      assert h == h[..n] + [h[n]];
      LastAlone(h);
      assert Ranks(h[..n]) == Ranks(h)[..n];
      e := h[n];
      h := h[..n];
      repr := repr - {e};
      e.heapIndex := -1;
    }

    /** Restores the order after the rank at slot `i` changed. */
    method Fix(i: nat)
      requires i < |h| && Owned() && Linked(h) && BrokenAt(Ranks(h), i)
      modifies `h, repr`heapIndex
      ensures Valid() && multiset(h) == old(multiset(h))
    {
      hide Ranks, BrokenAt, Linked, Owned;
      assert Ranks(h)[..|h|] == Ranks(h);
      var moved := SiftDown(i, |h|);
      assert Ranks(h)[..|h|] == Ranks(h);
      if !moved {
        BelowFixed(Ranks(h), i);
        SiftUp(i);
      }
    }
  }

  lemma SameObjects(a: seq<SeriesEntry>, b: seq<SeriesEntry>)
    requires multiset(a) == multiset(b)
    ensures (set e | e in a) == (set e | e in b)
  {
    forall e
      ensures e in a <==> e in b
    {
      assert e in a <==> e in multiset(a);
      assert e in b <==> e in multiset(b);
    }
  }

  lemma BelowFixed(r: seq<Rank>, i: nat)
    requires BrokenAt(r, i) && forall k :: 0 < k < |r| && Up(k) == i ==> Edge(r, k)
    ensures BrokenAbove(r, i)
  {
    hide Edge, BrokenAt;
  }

  lemma RootFixed(r: seq<Rank>)
    requires BrokenAt(r, 0) && forall k :: 0 < k < |r| && Up(k) == 0 ==> Edge(r, k)
    ensures IsHeap(r)
  {
    hide Edge;
  }

  lemma LastAlone(h: seq<SeriesEntry>)
    requires h != [] && Linked(h)
    ensures Linked(h[..|h| - 1])
    ensures var n := |h| - 1; h[n] !in h[..n] && (set e | e in h[..n]) == (set e | e in h) - {h[n]}
  {
    var n := |h| - 1;
    assert h == h[..n] + [h[n]];
    forall i | 0 <= i < n
      ensures h[i] != h[n]
    {
      assert h[i].heapIndex == i;
    }
  }

  lemma BelowBreaks(r: seq<Rank>, i: nat)
    requires BrokenBelow(r, i)
    ensures BrokenAt(r, i)
  {
  }

  lemma FinishDown(r: seq<Rank>, i: nat, moved: bool)
    requires (moved ==> BrokenBelow(r, i)) && forall k :: 0 < k < |r| && Up(k) == i ==> Edge(r, k)
    ensures moved ==> IsHeap(r)
  {
    hide BrokenBelow;
    if moved {
      BelowDone(r, i);
    }
  }

  /** The objects are exactly the live entries, filed under their own keys. */
  ghost predicate Filed(series: map<string, SeriesEntry>, objects: set<SeriesEntry>)
  {
    && (forall k :: k in series ==> series[k].key == k && series[k] in objects)
    && (forall e :: e in objects ==> e.key in series && series[e.key] == e)
  }

  lemma FiledInsert(series: map<string, SeriesEntry>, objects: set<SeriesEntry>, e: SeriesEntry)
    requires Filed(series, objects) && e.key !in series
    ensures e !in objects && Filed(series[e.key := e], objects + {e}) && |series[e.key := e]| == |series| + 1
  {
    assert series[e.key := e].Keys == series.Keys + {e.key};
  }

  lemma FiledRemove(series: map<string, SeriesEntry>, objects: set<SeriesEntry>, e: SeriesEntry)
    requires Filed(series, objects) && e in objects
    ensures e.key in series && series[e.key] == e
    ensures Filed(series - {e.key}, objects - {e}) && |series - {e.key}| == |series| - 1
  {
    assert (series - {e.key}).Keys == series.Keys - {e.key};
  }

  /** Seen longer ago, or at the same time and first by key. */
  predicate Older(d: SeriesEntry, e: SeriesEntry)
    reads d`lastSeen, e`lastSeen
  {
    d.lastSeen < e.lastSeen || (d.lastSeen == e.lastSeen && StrLess(d.key, e.key))
  }

  class SeriesTable {
    /** Zero means no cap. */
    const maxSeries: nat
    const evictOldest: bool

    var heap: EvictionHeap
    var series: map<string, SeriesEntry>

    ghost predicate Valid()
      reads `series, `heap, heap, heap.repr`heapIndex, heap.repr`lastSeen
    {
      && heap.Valid() && Filed(series, heap.repr)
      && (maxSeries > 0 ==> |series| <= maxSeries)
    }

    constructor (cap: nat, evict: bool)
      ensures Valid() && maxSeries == cap && evictOldest == evict && series == map[] && fresh(heap)
    {
      maxSeries, evictOldest, series := cap, evict, map[];
      heap := new EvictionHeap();
    }

    /** Removes the one entry that comes before every other live entry. */
    method EvictOldest() returns (e: SeriesEntry)
      requires Valid() && series != map[]
      modifies `series, heap, heap.repr`heapIndex
      ensures heap.Valid() && Filed(series, heap.repr) && heap.repr == old(heap.repr) - {e}
      ensures e.key in old(series) && old(series)[e.key] == e && series == old(series) - {e.key}
      ensures |series| == old(|series|) - 1
      ensures forall k :: k in old(series) && k != e.key ==> Older(e, old(series)[k])
    {
      hide EvictionHeap.Valid, Filed;
      SomeEntry();
      RootBeforeOthers();
      FiledRemove(series, heap.repr, heap.h[0]);
      e := heap.Pop();
      series := series - {e.key};
    }

    lemma SomeEntry()
      requires Valid() && series != map[]
      ensures heap.h != []
    {
      var k :| k in series;
      assert series[k] in heap.repr;
    }

    lemma RootBeforeOthers()
      requires Valid() && heap.h != []
      ensures heap.h[0] in heap.repr
      ensures forall k :: k in series && k != heap.h[0].key ==> Before(heap.h[0].Rank(), series[k].Rank())
    {
      hide IsHeap, Ranks, Linked, Before;
      var root := heap.h[0];
      forall k | k in series && k != root.key
        ensures Before(root.Rank(), series[k].Rank())
      {
        var e := series[k];
        assert e in heap.repr;
        var i :| 0 <= i < |heap.h| && heap.h[i] == e;
        RootLeast(Ranks(heap.h), i);
        LeTotal(e.Rank(), root.Rank());
      }
    }

    /** Registers a new series, making room first if the policy allows; `None`
        when the table is full and must not evict. */
    method Admit(key: string, timestamp: nat) returns (entry: SeriesEntry?, ghost evicted: SeriesEntry?)
      requires Valid() && key !in series
      modifies `series, heap, heap.repr`heapIndex
      ensures Valid()
      ensures entry == null <==> 0 < maxSeries <= old(|series|) && !evictOldest
      ensures entry == null ==> series == old(series) && evicted == null
      ensures entry != null ==>
                && fresh(entry) && entry.key == key && entry.lastSeen == timestamp && entry.count == 0
                && (evicted != null <==> 0 < maxSeries <= old(|series|))
                && series == (if evicted == null then old(series) else old(series) - {evicted.key})[key := entry]
      ensures evicted != null ==>
                && evicted.key in old(series) && old(series)[evicted.key] == evicted
                && forall k :: k in old(series) && k != evicted.key ==> Older(evicted, old(series)[k])
    {
      hide EvictionHeap.Valid, Filed, Older;
      evicted := null;
      if maxSeries > 0 && |series| >= maxSeries {
        if !evictOldest {
          return null, null;
        }
        assert series != map[];
        evicted := EvictOldest();
      }
      var e := new SeriesEntry(key, timestamp);
      Insert(e);
      entry := e;
    }

    method Insert(e: SeriesEntry)
      requires heap.Valid() && Filed(series, heap.repr) && e.key !in series && (maxSeries > 0 ==> |series| < maxSeries)
      modifies `series, heap, heap.repr`heapIndex, e`heapIndex
      ensures Valid() && series == old(series)[e.key := e] && heap.repr == old(heap.repr) + {e}
    {
      hide EvictionHeap.Valid, Filed;
      FiledInsert(series, heap.repr, e);
      heap.NotOwned(e);
      heap.Push(e);
      series := series[e.key := e];
    }

    /** Closes the window: its entries are handed over untouched, and the next window
        starts with an empty table and an empty heap. */
    method Rotate() returns (closed: map<string, SeriesEntry>)
      requires Valid()
      modifies `series, `heap
      ensures Valid() && closed == old(series) && series == map[] && fresh(heap) && heap.repr == {}
      ensures forall k :: k in closed ==> closed[k].key == k
    {
      hide EvictionHeap.Valid;
      closed := series;
      series := map[];
      heap := new EvictionHeap();
    }

    /** An observation makes its series more recent, never less. */
    method Record(e: SeriesEntry, timestamp: nat)
      requires Valid() && e in heap.repr
      modifies heap`h, heap.repr`heapIndex, e`lastSeen, e`count
      ensures Valid() && series == old(series)
      ensures e.lastSeen == (if timestamp > old(e.lastSeen) then timestamp else old(e.lastSeen))
      ensures e.count == old(e.count) + 1
    {
      hide SeriesTable.Valid;
      if timestamp > e.lastSeen {
        Touch(e, timestamp);
      }
      e.count := e.count + 1;
    }

    method Touch(e: SeriesEntry, timestamp: nat)
      requires Valid() && e in heap.repr
      modifies heap`h, heap.repr`heapIndex, e`lastSeen
      ensures Valid() && e.lastSeen == timestamp
    {
      hide IsHeap, Ranks, BrokenAt;
      ghost var r := Ranks(heap.h);
      var i := e.heapIndex;
      assert heap.h[i] == e by { SlotOf(e); }
      e.lastSeen := timestamp;
      assert Ranks(heap.h) == r[i := e.Rank()] by { OthersKeepRank(e, i, r); }
      UpdateBreaks(r, i, e.Rank());
      heap.Fix(i);
    }

    lemma SlotOf(e: SeriesEntry)
      requires Valid() && e in heap.repr
      ensures 0 <= e.heapIndex < |heap.h| && heap.h[e.heapIndex] == e
    {
      var i :| 0 <= i < |heap.h| && heap.h[i] == e;
    }

    lemma OthersKeepRank(e: SeriesEntry, i: int, r: seq<Rank>)
      requires 0 <= i < |heap.h| == |r| && heap.h[i] == e && Linked(heap.h)
      requires forall j :: 0 <= j < |r| && j != i ==> r[j] == heap.h[j].Rank()
      ensures Ranks(heap.h) == r[i := e.Rank()]
    {
    }
  }
}
