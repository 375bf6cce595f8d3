/**
 The block finalizer: fragments are collected per series, sorted by start time
 and de-overlapped.
 */
module FragmentFinalizer {
  import opened ReorderSeries
  import opened ReorderState

  datatype Meta = Meta(minTime: int, maxTime: int, data: seq<Point>)

  datatype BlockSeries = BlockSeries(chunks: seq<Meta>, samples: nat)

  // ---------------------------------------------------------------------
  // De-overlap
  // ---------------------------------------------------------------------

  /** Keeps each chunk that starts after the end of the one kept before it. */
  function DeOverlap(ms: seq<Meta>, lastMax: int): (r: seq<Meta>)
    ensures |r| <= |ms|
  {
    if ms == [] then []
    else if ms[0].minTime <= lastMax then DeOverlap(ms[1..], lastMax)
    else [ms[0]] + DeOverlap(ms[1..], ms[0].maxTime)
  }

  predicate SortedByMin(ms: seq<Meta>)
  {
    forall i, j :: 0 <= i < j < |ms| ==> ms[i].minTime <= ms[j].minTime
  }

  /** Later chunks start after earlier ones end. */
  predicate Disjoint(ms: seq<Meta>)
  {
    forall i, j :: 0 <= i < j < |ms| ==> ms[i].maxTime < ms[j].minTime
  }

  predicate Spans(ms: seq<Meta>)
  {
    forall i :: 0 <= i < |ms| ==> ms[i].minTime <= ms[i].maxTime
  }

  lemma {:induction false} DeOverlapSubset(ms: seq<Meta>, lastMax: int)
    ensures forall m :: m in DeOverlap(ms, lastMax) ==> m in ms
    ensures multiset(DeOverlap(ms, lastMax)) <= multiset(ms)
  {
    if ms != [] {
      assert ms == [ms[0]] + ms[1..];
      if ms[0].minTime <= lastMax {
        DeOverlapSubset(ms[1..], lastMax);
      } else {
        DeOverlapSubset(ms[1..], ms[0].maxTime);
      }
    }
  }

  /** What is kept is sorted and disjoint. */
  lemma {:induction false} DeOverlapDisjoint(ms: seq<Meta>, lastMax: int)
    requires Spans(ms)
    ensures Disjoint(DeOverlap(ms, lastMax)) && Spans(DeOverlap(ms, lastMax))
    ensures forall m :: m in DeOverlap(ms, lastMax) ==> m.minTime > lastMax
    ensures SortedByMin(DeOverlap(ms, lastMax))
  {
    if ms != [] {
      if ms[0].minTime <= lastMax {
        DeOverlapDisjoint(ms[1..], lastMax);
      } else {
        var rest := DeOverlap(ms[1..], ms[0].maxTime);
        DeOverlapDisjoint(ms[1..], ms[0].maxTime);
        assert forall i :: 0 <= i < |rest| ==> rest[i] in rest;
      }
    }
  }

  /** Nothing is discarded exactly when the sorted chunks are already disjoint and
      start after the least time. */
  lemma {:induction false} DeOverlapAllIff(ms: seq<Meta>, lastMax: int)
    requires Spans(ms)
    ensures DeOverlap(ms, lastMax) == ms <==>
            Disjoint(ms) && (forall i :: 0 <= i < |ms| ==> ms[i].minTime > lastMax)
    ensures DeOverlap(ms, lastMax) != ms ==> |DeOverlap(ms, lastMax)| < |ms|
  {
    if ms != [] {
      assert ms == [ms[0]] + ms[1..];
      if ms[0].minTime > lastMax {
        var t, top := ms[1..], ms[0].maxTime;
        DeOverlapAllIff(t, top);
        if DeOverlap(t, top) == t {
          DeOverlapDisjoint(ms, lastMax);
          assert forall i :: 0 <= i < |ms| ==> ms[i] in ms;
        }
      }
    }
  }

  /** A chunk starting at the least 64-bit time is always discarded, whatever else
      there is. */
  lemma {:induction false} LeastTimeDiscarded(ms: seq<Meta>, lastMax: int)
    requires lastMax >= MIN_INT64 && forall i :: 0 <= i < |ms| ==> ms[i].maxTime >= MIN_INT64
    ensures forall m :: m in DeOverlap(ms, lastMax) ==> m.minTime != MIN_INT64
    decreases |ms|
  {
    if ms != [] {
      LeastTimeDiscarded(ms[1..], if ms[0].minTime <= lastMax then lastMax else ms[0].maxTime);
    }
  }

  // ---------------------------------------------------------------------
  // When nothing is discarded
  // ---------------------------------------------------------------------

  /** The chunks overlap nowhere, and none starts at the least time. */
  ghost predicate Apart(s: multiset<Meta>)
  {
    && (forall m :: m in s ==> s[m] == 1 && m.minTime > MIN_INT64)
    && (forall m, n :: m in s && n in s && m != n ==> m.maxTime < n.minTime || n.maxTime < m.minTime)
  }

  lemma TwiceIn(ms: seq<Meta>, i: nat, j: nat)
    requires i < j < |ms| && ms[i] == ms[j]
    ensures multiset(ms)[ms[i]] >= 2
  {
    assert ms == ms[..j] + [ms[j]] + ms[j + 1..];
    assert ms[..j][i] == ms[i];
  }

  lemma OnceIn(ms: seq<Meta>, m: Meta)
    requires Spans(ms) && Disjoint(ms) && m in ms
    ensures multiset(ms)[m] == 1
  {
    var i :| 0 <= i < |ms| && ms[i] == m;
    forall k | 0 <= k < |ms| && k != i
      ensures ms[k] != m
    {
      if k < i {
        assert ms[k].maxTime < ms[i].minTime <= ms[i].maxTime;
      } else {
        assert ms[i].maxTime < ms[k].minTime <= ms[k].maxTime;
      }
    }
    CountAround(ms, i);
  }

  lemma CountAround(ms: seq<Meta>, i: nat)
    requires i < |ms| && forall k :: 0 <= k < |ms| && k != i ==> ms[k] != ms[i]
    ensures multiset(ms)[ms[i]] == 1
  {
    var before, after := ms[..i], ms[i + 1..];
    assert ms == before + [ms[i]] + after;
    assert ms[i] !in before && ms[i] !in after;
  }

  lemma ApartIff(ms: seq<Meta>)
    requires SortedByMin(ms) && Spans(ms)
    ensures Apart(multiset(ms)) <==> Disjoint(ms) && forall i :: 0 <= i < |ms| ==> ms[i].minTime > MIN_INT64
  {
    if Apart(multiset(ms)) {
      forall i, j | 0 <= i < j < |ms|
        ensures ms[i].maxTime < ms[j].minTime
      {
        assert ms[i] in multiset(ms) && ms[j] in multiset(ms);
        if ms[i] == ms[j] {
          TwiceIn(ms, i, j);
        }
      }
      assert forall i :: 0 <= i < |ms| ==> ms[i] in multiset(ms);
    }
    if Disjoint(ms) && forall i :: 0 <= i < |ms| ==> ms[i].minTime > MIN_INT64 {
      forall m | m in multiset(ms)
        ensures multiset(ms)[m] == 1 && m.minTime > MIN_INT64
      {
        OnceIn(ms, m);
      }
    }
  }

  lemma SamePermutation(a: seq<Meta>, b: seq<Meta>)
    requires multiset(a) == multiset(b)
    ensures |a| == |b| && forall m :: m in a <==> m in b
  {
    assert |a| == |multiset(a)| == |multiset(b)| == |b|;
    assert forall m :: m in a <==> m in multiset(a);
    assert forall m :: m in b <==> m in multiset(b);
  }

  /** A finished series has all its chunks if and only if they lay apart. */
  lemma KeptAllIff(b: BlockSeries, a: BlockSeries)
    requires FinalizedAt(b, a) && Spans(b.chunks)
    ensures |a.chunks| <= |b.chunks|
    ensures |a.chunks| == |b.chunks| <==> Apart(multiset(b.chunks))
  {
    var sorted: seq<Meta> :| SortedByMin(sorted) && multiset(sorted) == multiset(b.chunks)
                  && a.chunks == DeOverlap(sorted, MIN_INT64);
    SamePermutation(sorted, b.chunks);
    forall i | 0 <= i < |sorted|
      ensures sorted[i].minTime <= sorted[i].maxTime
    {
      assert sorted[i] in b.chunks;
    }
    ApartIff(sorted);
    DeOverlapAllIff(sorted, MIN_INT64);
  }

  // ---------------------------------------------------------------------
  // The encoder's own fragments
  // ---------------------------------------------------------------------

  function MetaOf(f: Fragment): (m: Meta)
  {
    Meta(f.minTime, f.maxTime, f.data)
  }

  /** The chunks of the fragments one series incarnation produced. */
  function MetasBy(made: seq<Made>, id: nat): (r: seq<Meta>)
  {
    if made == [] then []
    else
      var m := made[|made| - 1];
      MetasBy(made[..|made| - 1], id) + (if m.id == id then [MetaOf(m.f)] else [])
  }

  predicate AllCoherent(made: seq<Made>)
  {
    forall k :: 0 <= k < |made| ==> Coherent(made[k].f)
  }

  lemma {:induction false} MetasBounds(made: seq<Made>, id: nat)
    requires AllCoherent(made) && Increasing(ShippedBy(made, id))
    ensures var ms, ps := MetasBy(made, id), ShippedBy(made, id);
            && Spans(ms) && Disjoint(ms)
            && (forall m :: m in ms ==> ps != [] && m.maxTime <= ps[|ps| - 1].t)
            && (forall m :: m in ms ==> exists p :: p in ps && p.t == m.minTime)
    decreases |made|
  {
    if made != [] {
      var n := |made| - 1;
      var init, last := made[..n], made[n];
      var ps0, ps := ShippedBy(init, id), ShippedBy(made, id);
      assert forall i, j :: 0 <= i < j < |ps0| ==> ps0[i] == ps[i] && ps0[j] == ps[j];
      MetasBounds(init, id);
      if last.id == id {
        MetasSnoc(init, last.f, id);
      } else {
        assert ps0 + [] == ps0 && MetasBy(init, id) + [] == MetasBy(init, id);
      }
    }
  }

  lemma MetasSnoc(init: seq<Made>, f: Fragment, id: nat)
    requires Coherent(f) && Increasing(ShippedBy(init, id) + f.data)
    requires var ms, ps := MetasBy(init, id), ShippedBy(init, id);
             && Spans(ms) && Disjoint(ms)
             && (forall m :: m in ms ==> ps != [] && m.maxTime <= ps[|ps| - 1].t)
             && (forall m :: m in ms ==> exists p :: p in ps && p.t == m.minTime)
    ensures var ms, ps := MetasBy(init, id) + [MetaOf(f)], ShippedBy(init, id) + f.data;
            && Spans(ms) && Disjoint(ms)
            && (forall m :: m in ms ==> ps != [] && m.maxTime <= ps[|ps| - 1].t)
            && (forall m :: m in ms ==> exists p :: p in ps && p.t == m.minTime)
  {
    hide MetasBy, ShippedBy;
    var olds, ps0 := MetasBy(init, id), ShippedBy(init, id);
    var ms, ps := olds + [MetaOf(f)], ps0 + f.data;
    var k := |ps0|;
    assert ps[k] == f.data[0] && ps[|ps| - 1] == f.data[|f.data| - 1];
    assert f.minTime <= f.maxTime;
    forall m | m in olds
      ensures m.maxTime < f.minTime && m.maxTime <= ps[|ps| - 1].t
      ensures exists p :: p in ps && p.t == m.minTime
    {
      assert ps[k - 1] == ps0[k - 1];
      var p :| p in ps0 && p.t == m.minTime;
      assert p in ps;
    }
    assert forall i :: 0 <= i < |olds| ==> olds[i] in olds;
    assert f.data[0] in ps;
  }

  /** The finalizer discards no chunk of a single incarnation: its fragments are
      already disjoint and in order. */
  lemma OwnFragmentsKept(made: seq<Made>, id: nat)
    requires AllCoherent(made) && Increasing(ShippedBy(made, id))
    requires forall p :: p in ShippedBy(made, id) ==> IsMs(p.t)
    ensures SortedByMin(MetasBy(made, id))
    ensures DeOverlap(MetasBy(made, id), MIN_INT64) == MetasBy(made, id)
  {
    var ms := MetasBy(made, id);
    MetasBounds(made, id);
    forall i | 0 <= i < |ms|
      ensures ms[i].minTime > MIN_INT64
    {
      assert ms[i] in ms;
    }
    DeOverlapAllIff(ms, MIN_INT64);
  }

  // ---------------------------------------------------------------------
  // The finalizer
  // ---------------------------------------------------------------------

  predicate Skipped(f: Fragment)
  {
    f.count == 0 || f.data == []
  }

  function DropSum(fs: seq<Fragment>): (n: nat)
  {
    if fs == [] then 0 else DropSum(fs[..|fs| - 1]) + fs[|fs| - 1].oooDrop
  }

  function SampleSum(fs: seq<Fragment>): (n: nat)
  {
    if fs == [] then 0 else SampleSum(fs[..|fs| - 1]) + fs[|fs| - 1].count
  }

  function ChunksFor(fs: seq<Fragment>, key: Key): (r: seq<Meta>)
  {
    if fs == [] then []
    else
      var f := fs[|fs| - 1];
      ChunksFor(fs[..|fs| - 1], key) + (if f.key == key then [MetaOf(f)] else [])
  }

  lemma AddedSnoc(fs: seq<Fragment>, f: Fragment)
    ensures DropSum(fs + [f]) == DropSum(fs) + f.oooDrop
    ensures SampleSum(fs + [f]) == SampleSum(fs) + f.count
    ensures forall k :: ChunksFor(fs + [f], k) == if k == f.key then ChunksFor(fs, k) + [MetaOf(f)] else ChunksFor(fs, k)
  {
    assert (fs + [f])[..|fs|] == fs;
    forall k
      ensures ChunksFor(fs + [f], k) == if k == f.key then ChunksFor(fs, k) + [MetaOf(f)] else ChunksFor(fs, k)
    {
      assert ChunksFor(fs, k) + [] == ChunksFor(fs, k);
    }
  }

  /** Each series holds the chunks of its fragments, in the order added. */
  ghost predicate Collected(series: map<Key, BlockSeries>, fs: seq<Fragment>)
  {
    && (forall k :: k in series ==> series[k].chunks == ChunksFor(fs, k))
    && (forall k :: k !in series ==> ChunksFor(fs, k) == [])
  }

  function Collect(series: map<Key, BlockSeries>, f: Fragment): (r: map<Key, BlockSeries>)
  {
    var st := if f.key in series then series[f.key] else BlockSeries([], 0);
    series[f.key := BlockSeries(st.chunks + [MetaOf(f)], st.samples + f.count)]
  }

  lemma CollectedSnoc(series: map<Key, BlockSeries>, fs: seq<Fragment>, f: Fragment)
    requires Collected(series, fs)
    ensures Collected(Collect(series, f), fs + [f])
  {
    hide ChunksFor;
    AddedSnoc(fs, f);
  }

  method InsertMeta(ms: seq<Meta>, m: Meta) returns (r: seq<Meta>)
    requires SortedByMin(ms)
    ensures SortedByMin(r) && multiset(r) == multiset(ms) + multiset{m}
  {
    var p := 0;
    while p < |ms| && ms[p].minTime <= m.minTime
      invariant p <= |ms| && forall i :: 0 <= i < p ==> ms[i].minTime <= m.minTime
    {
      p := p + 1;
    }
    assert ms == ms[..p] + ms[p..];
    r := ms[..p] + [m] + ms[p..];
  }

  method SortMetas(ms: seq<Meta>) returns (r: seq<Meta>)
    ensures SortedByMin(r) && multiset(r) == multiset(ms)
  {
    r := [];
    for i := 0 to |ms|
      invariant SortedByMin(r) && multiset(r) == multiset(ms[..i])
    {
      assert ms[..i + 1] == ms[..i] + [ms[i]];
      r := InsertMeta(r, ms[i]);
    }
    assert ms[..|ms|] == ms;
  }

  /** The in-place filter over the sorted chunks. */
  method Filter(ms: seq<Meta>) returns (kept: seq<Meta>, discarded: nat)
    ensures kept == DeOverlap(ms, MIN_INT64) && |kept| + discarded == |ms|
  {
    kept, discarded := [], 0;
    var lastMax := MIN_INT64;
    assert ms[0..] == ms && [] + DeOverlap(ms, MIN_INT64) == DeOverlap(ms, MIN_INT64);
    for i := 0 to |ms|
      invariant kept + DeOverlap(ms[i..], lastMax) == DeOverlap(ms, MIN_INT64)
      invariant |kept| + discarded == i
    {
      assert ms[i..][0] == ms[i] && ms[i..][1..] == ms[i + 1..];
      if ms[i].minTime <= lastMax {
        discarded := discarded + 1;
      } else {
        ghost var rest := DeOverlap(ms[i + 1..], ms[i].maxTime);
        assert kept + ([ms[i]] + rest) == (kept + [ms[i]]) + rest;
        kept := kept + [ms[i]];
        lastMax := ms[i].maxTime;
      }
    }
    assert kept + [] == kept;
  }

  function ChunkTotal(order: seq<Key>, m: map<Key, BlockSeries>): (n: nat)
    requires forall k :: k in order ==> k in m
  {
    if order == [] then 0 else ChunkTotal(order[..|order| - 1], m) + |m[order[|order| - 1]].chunks|
  }

  lemma {:induction false} ChunkTotalOther(order: seq<Key>, m: map<Key, BlockSeries>, n: map<Key, BlockSeries>)
    requires forall k :: k in order ==> k in m && k in n && m[k].chunks == n[k].chunks
    ensures ChunkTotal(order, m) == ChunkTotal(order, n)
  {
    if order != [] {
      assert order[|order| - 1] in order;
      assert forall k :: k in order[..|order| - 1] ==> k in order;
      ChunkTotalOther(order[..|order| - 1], m, n);
    }
  }

  lemma ChunkTotalNone(m: map<Key, BlockSeries>)
    ensures ChunkTotal([], m) == 0
  {
  }

  lemma ChunkTotalSnoc(order: seq<Key>, k: Key, m: map<Key, BlockSeries>, n: map<Key, BlockSeries>)
    requires k in m && k in n && forall j :: j in order ==> j in m && j in n
    ensures ChunkTotal(order + [k], m) == ChunkTotal(order, m) + |m[k].chunks|
    ensures ChunkTotal(order + [k], n) == ChunkTotal(order, n) + |n[k].chunks|
  {
    assert (order + [k])[..|order|] == order;
  }

  ghost predicate Lists(order: seq<Key>, keys: set<Key>)
  {
    && (forall k :: k in keys <==> k in order)
    && (forall i, j :: 0 <= i < j < |order| ==> order[i] != order[j])
  }

  function CountFor(order: seq<Key>, fs: seq<Fragment>): (n: nat)
  {
    if order == [] then 0 else CountFor(order[..|order| - 1], fs) + |ChunksFor(fs, order[|order| - 1])|
  }

  lemma {:induction false} CountForSnoc(order: seq<Key>, fs: seq<Fragment>, f: Fragment)
    requires forall i, j :: 0 <= i < j < |order| ==> order[i] != order[j]
    ensures CountFor(order, fs + [f]) == CountFor(order, fs) + (if f.key in order then 1 else 0)
    decreases |order|
  {
    hide ChunksFor;
    AddedSnoc(fs, f);
    if order != [] {
      var n := |order| - 1;
      assert order == order[..n] + [order[n]];
      CountForSnoc(order[..n], fs, f);
    }
  }

  /** Every fragment added is one chunk of one series. */
  lemma {:induction false} CountForAll(order: seq<Key>, fs: seq<Fragment>)
    requires forall i, j :: 0 <= i < j < |order| ==> order[i] != order[j]
    requires forall i :: 0 <= i < |fs| ==> fs[i].key in order
    ensures CountFor(order, fs) == |fs|
    decreases |fs|
  {
    if fs == [] {
      CountForNone(order);
    } else {
      var n := |fs| - 1;
      assert fs == fs[..n] + [fs[n]];
      CountForAll(order, fs[..n]);
      CountForSnoc(order, fs[..n], fs[n]);
    }
  }

  lemma {:induction false} CountForNone(order: seq<Key>)
    ensures CountFor(order, []) == 0
  {
    if order != [] {
      CountForNone(order[..|order| - 1]);
    }
  }

  lemma {:induction false} TotalIsCount(order: seq<Key>, m: map<Key, BlockSeries>, fs: seq<Fragment>)
    requires Collected(m, fs) && forall k :: k in order ==> k in m
    ensures ChunkTotal(order, m) == CountFor(order, fs)
    decreases |order|
  {
    hide ChunksFor;
    if order != [] {
      var n := |order| - 1;
      assert order[n] in order && forall k :: k in order[..n] ==> k in order;
      TotalIsCount(order[..n], m, fs);
    }
  }

  lemma {:induction false} KeysKnown(fs: seq<Fragment>, i: nat)
    requires i < |fs|
    ensures ChunksFor(fs, fs[i].key) != []
    decreases |fs|
  {
    var n := |fs| - 1;
    if i < n {
      KeysKnown(fs[..n], i);
    }
  }

  lemma TotalAdded(order: seq<Key>, m: map<Key, BlockSeries>, fs: seq<Fragment>)
    requires Collected(m, fs) && Lists(order, m.Keys)
    ensures ChunkTotal(order, m) == |fs|
  {
    hide ChunksFor;
    TotalIsCount(order, m, fs);
    forall i | 0 <= i < |fs|
      ensures fs[i].key in order
    {
      KeysKnown(fs, i);
    }
    CountForAll(order, fs);
  }

  /** Every series is the de-overlap of some sorting of its chunks. */
  ghost predicate Finalized(before: map<Key, BlockSeries>, after: map<Key, BlockSeries>, done: seq<Key>)
  {
    && before.Keys == after.Keys
    && (forall k :: k in after ==> if k in done then FinalizedAt(before[k], after[k]) else after[k] == before[k])
  }

  ghost predicate FinalizedAt(b: BlockSeries, a: BlockSeries)
  {
    a.samples == b.samples &&
    exists sorted :: SortedByMin(sorted) && multiset(sorted) == multiset(b.chunks)
                     && a.chunks == DeOverlap(sorted, MIN_INT64)
  }

  /** The least start and the greatest end of the fragments, or the largest and the
      smallest int64. */
  function Earliest(fs: seq<Fragment>): (t: int)
    ensures t <= MAX_INT64 && forall i :: 0 <= i < |fs| ==> t <= fs[i].minTime
    ensures t == MAX_INT64 || exists i :: 0 <= i < |fs| && fs[i].minTime == t
  {
    if fs == [] then MAX_INT64
    else
      var n := |fs| - 1;
      var t := Earliest(fs[..n]);
      if fs[n].minTime < t then fs[n].minTime else t
  }

  function LatestEnd(fs: seq<Fragment>): (t: int)
    ensures MIN_INT64 <= t && forall i :: 0 <= i < |fs| ==> fs[i].maxTime <= t
    ensures t == MIN_INT64 || exists i :: 0 <= i < |fs| && fs[i].maxTime == t
  {
    if fs == [] then MIN_INT64
    else
      var n := |fs| - 1;
      var t := LatestEnd(fs[..n]);
      if fs[n].maxTime > t then fs[n].maxTime else t
  }

  lemma ExtentSnoc(fs: seq<Fragment>, f: Fragment)
    ensures Earliest(fs + [f]) == if f.minTime < Earliest(fs) then f.minTime else Earliest(fs)
    ensures LatestEnd(fs + [f]) == if f.maxTime > LatestEnd(fs) then f.maxTime else LatestEnd(fs)
  {
    assert (fs + [f])[..|fs|] == fs;
  }

  class Finalizer {
    var series: map<Key, BlockSeries>
    var minTime: int
    var maxTime: int
    var numSamples: nat
    var numChunks: nat
    var numOOODropped: nat

    /** The fragments that were not skipped. */
    ghost var added: seq<Fragment>

    ghost predicate Valid()
      reads this
    {
      && numSamples == SampleSum(added) && numChunks == |added| && numOOODropped == DropSum(added)
      && Collected(series, added)
      && (forall i :: 0 <= i < |added| ==> !Skipped(added[i]))
      && minTime == Earliest(added) && maxTime == LatestEnd(added)
    }

    constructor ()
      ensures Valid() && added == [] && series == map[]
    {
      series := map[];
      minTime, maxTime := MAX_INT64, MIN_INT64;
      numSamples, numChunks, numOOODropped := 0, 0, 0;
      added := [];
    }

    method AddFragment(f: Fragment)
      requires Valid()
      modifies this
      ensures Valid() && added == if f.count == 0 || |f.data| == 0 then old(added) else old(added) + [f]
    {
      hide Collected, DropSum, SampleSum, Earliest, LatestEnd;
      if f.count == 0 || f.data == [] {
        return;
      }
      ExtentSnoc(added, f);
      AddedSnoc(added, f);
      CollectedSnoc(series, added, f);
      var st := if f.key in series then series[f.key] else BlockSeries([], 0);
      series := series[f.key := BlockSeries(st.chunks + [Meta(f.minTime, f.maxTime, f.data)], st.samples + f.count)];
      numSamples := numSamples + f.count;
      numChunks := numChunks + 1;
      numOOODropped := numOOODropped + f.oooDrop;
      minTime := if f.minTime < minTime then f.minTime else minTime;
      maxTime := if f.maxTime > maxTime then f.maxTime else maxTime;
      added := added + [f];
    }

    /** Returns whether a block is written.  The drop total becomes what the
        fragments reported plus the chunks discarded here; the sample and chunk
        totals still count the discarded ones. */
    method Finalize() returns (written: bool, ghost order: seq<Key>)
      requires Valid()
      modifies this
      ensures written <==> added != []
      ensures !written ==> series == old(series)
      ensures written ==>
                && Lists(order, series.Keys) && Finalized(old(series), series, order)
                && numOOODropped == DropSum(added) + numChunks - ChunkTotal(order, series)
      ensures added == old(added) && numSamples == SampleSum(added) && numChunks == |added|
      ensures minTime == Earliest(added) && maxTime == LatestEnd(added)
    {
      hide Collected, SampleSum, DropSum, ChunkTotal, Finalized, Earliest, LatestEnd;
      SomeSamples(added);
      order := [];
      if numSamples == 0 {
        return false, order;
      }
      written := true;
      ghost var before := series;
      order := DeOverlapAll();
      TotalAdded(order, before, added);
    }

    method DeOverlapAll() returns (ghost order: seq<Key>)
      modifies `series, `numOOODropped
      ensures Lists(order, series.Keys) && series.Keys == old(series).Keys
      ensures forall k :: k in order ==> k in old(series)
      ensures Finalized(old(series), series, order)
      ensures numOOODropped == old(numOOODropped) + ChunkTotal(order, old(series)) - ChunkTotal(order, series)
    {
      hide FinalizedAt, ChunkTotal;
      var todo := series.Keys;
      order := [];
      ChunkTotalNone(series);
      while todo != {}
        invariant todo <= series.Keys && series.Keys == old(series.Keys)
        invariant Lists(order, series.Keys - todo) && forall k :: k in order ==> k in old(series)
        invariant Finalized(old(series), series, order)
        invariant numOOODropped == old(numOOODropped) + ChunkTotal(order, old(series)) - ChunkTotal(order, series)
        decreases |todo|
      {
        var k :| k in todo;
        ghost var before := series;
        DeOverlapOne(k);
        ChunkTotalOther(order, before, series);
        ChunkTotalSnoc(order, k, old(series), series);
        order := order + [k];
        todo := todo - {k};
      }
    }

    method DeOverlapOne(k: Key)
      requires k in series
      modifies `series, `numOOODropped
      ensures k in series && series == old(series)[k := series[k]] && FinalizedAt(old(series[k]), series[k])
      ensures numOOODropped == old(numOOODropped) + |old(series[k].chunks)| - |series[k].chunks|
    {
      var st := series[k];
      var sorted := SortMetas(st.chunks);
      assert |sorted| == |multiset(sorted)| == |multiset(st.chunks)| == |st.chunks|;
      var kept, discarded := Filter(sorted);
      series := series[k := BlockSeries(kept, st.samples)];
      numOOODropped := numOOODropped + discarded;
    }
  }

  lemma {:induction false} SomeSamples(fs: seq<Fragment>)
    requires forall i :: 0 <= i < |fs| ==> !Skipped(fs[i])
    ensures SampleSum(fs) == 0 <==> fs == []
  {
  }

  /** What the finalizer keeps of a series is sorted, disjoint and part of what was
      added. */
  lemma FinalizedDisjoint(b: BlockSeries, a: BlockSeries)
    requires FinalizedAt(b, a) && Spans(b.chunks)
    ensures SortedByMin(a.chunks) && Disjoint(a.chunks) && multiset(a.chunks) <= multiset(b.chunks)
  {
    var sorted: seq<Meta> :| SortedByMin(sorted) && multiset(sorted) == multiset(b.chunks)
                  && a.chunks == DeOverlap(sorted, MIN_INT64);
    forall i | 0 <= i < |sorted|
      ensures sorted[i].minTime <= sorted[i].maxTime
    {
      assert sorted[i] in multiset(b.chunks);
    }
    DeOverlapDisjoint(sorted, MIN_INT64);
    DeOverlapSubset(sorted, MIN_INT64);
  }

  lemma {:induction false} TotalsAgreeIff(order: seq<Key>, m: map<Key, BlockSeries>, n: map<Key, BlockSeries>)
    requires forall k :: k in order ==> k in m && k in n && |n[k].chunks| <= |m[k].chunks|
    ensures ChunkTotal(order, n) <= ChunkTotal(order, m)
    ensures ChunkTotal(order, n) == ChunkTotal(order, m) <==> forall k :: k in order ==> |n[k].chunks| == |m[k].chunks|
    decreases |order|
  {
    if order != [] {
      var i := |order| - 1;
      assert order == order[..i] + [order[i]];
      TotalsAgreeIff(order[..i], m, n);
    }
  }

  /** The fragments of every listed series lie apart. */
  ghost predicate AllApart(order: seq<Key>, fs: seq<Fragment>)
  {
    forall k :: k in order ==> Apart(multiset(ChunksFor(fs, k)))
  }

  /** The reported number of chunks is that of the finished block if and only if, series
      by series, the fragments given lay apart. */
  lemma CountExactIff(order: seq<Key>, before: map<Key, BlockSeries>, after: map<Key, BlockSeries>, fs: seq<Fragment>)
    requires Collected(before, fs) && Lists(order, after.Keys) && Finalized(before, after, order)
    requires forall i :: 0 <= i < |fs| ==> fs[i].minTime <= fs[i].maxTime
    ensures ChunkTotal(order, after) <= |fs|
    ensures ChunkTotal(order, after) == |fs| <==> AllApart(order, fs)
    ensures forall i :: 0 <= i < |fs| ==> fs[i].key in order
  {
    hide Apart, ChunkTotal, Collected, Finalized, ChunksFor;
    SameKeys(order, before, after);
    TotalAdded(order, before, fs);
    forall k | k in order
      ensures k in before && k in after && |after[k].chunks| <= |before[k].chunks|
      ensures |after[k].chunks| == |before[k].chunks| <==> Apart(multiset(ChunksFor(fs, k)))
    {
      SeriesCountIff(order, before, after, fs, k);
    }
    TotalsAgreeIff(order, before, after);
    forall i | 0 <= i < |fs|
      ensures fs[i].key in order
    {
      KeyCollected(before, fs, i);
    }
  }

  lemma KeyCollected(series: map<Key, BlockSeries>, fs: seq<Fragment>, i: nat)
    requires Collected(series, fs) && i < |fs|
    ensures fs[i].key in series
  {
    KeysKnown(fs, i);
  }

  lemma SameKeys(order: seq<Key>, before: map<Key, BlockSeries>, after: map<Key, BlockSeries>)
    requires Lists(order, after.Keys) && Finalized(before, after, order)
    ensures before.Keys == after.Keys && forall k :: k in order <==> k in before
  {
  }

  lemma SeriesCountIff(order: seq<Key>, before: map<Key, BlockSeries>, after: map<Key, BlockSeries>,
                       fs: seq<Fragment>, k: Key)
    requires Collected(before, fs) && Finalized(before, after, order) && k in order && k in after
    requires forall i :: 0 <= i < |fs| ==> fs[i].minTime <= fs[i].maxTime
    ensures k in before && |after[k].chunks| <= |before[k].chunks|
    ensures |after[k].chunks| == |before[k].chunks| <==> Apart(multiset(ChunksFor(fs, k)))
  {
    hide Apart, FinalizedAt, ChunksFor;
    ChunksSpan(fs, k);
    KeptAllIff(before[k], after[k]);
  }

  lemma {:induction false} ChunksSpan(fs: seq<Fragment>, k: Key)
    requires forall i :: 0 <= i < |fs| ==> fs[i].minTime <= fs[i].maxTime
    ensures Spans(ChunksFor(fs, k))
    decreases |fs|
  {
    if fs != [] {
      ChunksSpan(fs[..|fs| - 1], k);
    }
  }

  lemma TwoOverlap(a: Fragment, b: Fragment)
    requires a.key == b.key && a.minTime < b.minTime <= a.maxTime < b.maxTime
    ensures !Apart(multiset(ChunksFor([a, b], a.key))) && SampleSum([a, b]) == a.count + b.count
  {
    AddedSnoc([], a);
    AddedSnoc([a], b);
    assert [] + [a] == [a] && [a] + [b] == [a, b];
    var ms := ChunksFor([a, b], a.key);
    assert ms == [MetaOf(a), MetaOf(b)];
    assert MetaOf(a) in multiset(ms) && MetaOf(b) in multiset(ms);
  }

  /** Two overlapping fragments of one series: one chunk is written, two are counted. */
  method CountExample(key: Key, p: Point) returns (f: Finalizer, ghost order: seq<Key>)
    ensures f.numChunks == 2 && f.numSamples == 2
    ensures Lists(order, f.series.Keys) && ChunkTotal(order, f.series) < 2
  {
    hide Collected, SampleSum, DropSum, ChunkTotal, Finalized, Apart, Earliest, LatestEnd;
    var a := Fragment(key, 0, 10, 1, [p], 0, 0);
    var b := Fragment(key, 5, 15, 1, [p], 0, 0);
    f := new Finalizer();
    f.AddFragment(a);
    f.AddFragment(b);
    assert f.added == [a, b];
    ghost var before := f.series;
    var written;
    written, order := f.Finalize();
    TwoOverlap(a, b);
    CountExactIff(order, before, f.series, [a, b]);
  }
}
