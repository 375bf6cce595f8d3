/**
 The invariants of the fragment encoder, as predicates over the values of its
 fields, and how each elementary change keeps them.  A series object is an index
 into an append-only store, so the identity of an evicted and re-created series
 is not confused with its predecessor's.
 */
module ReorderState {
  import opened MinHeap
  import opened ReorderSeries

  type Queue = multiset<Item<nat>>

  datatype Fragment = Fragment(key: Key, minTime: int, maxTime: int, count: nat, data: seq<Point>,
                               oooDrop: nat, watermark: int)

  /** A fragment and the series object that produced it. */
  datatype Made = Made(id: nat, f: Fragment)

  /** Bounds and count describe the encoded points. */
  predicate Coherent(f: Fragment)
  {
    && |f.data| == f.count > 0
    && f.minTime == f.data[0].t && f.maxTime == f.data[f.count - 1].t
  }

  function FragmentOf(s: Series, oooDrop: nat, watermark: int): (f: Fragment)
    requires s.open != []
    ensures Coherent(f)
  {
    Fragment(s.key, s.open[0].t, s.open[|s.open| - 1].t, |s.open|, s.open, oooDrop, watermark)
  }

  // ---------------------------------------------------------------------
  // Fragments produced
  // ---------------------------------------------------------------------

  function Frags(made: seq<Made>): (r: seq<Fragment>)
    ensures |r| == |made|
  {
    seq(|made|, i requires 0 <= i < |made| => made[i].f)
  }

  /** The points series `id` has shipped, in order. */
  function ShippedBy(made: seq<Made>, id: nat): (r: seq<Point>)
  {
    if made == [] then []
    else
      var m := made[|made| - 1];
      ShippedBy(made[..|made| - 1], id) + (if m.id == id then m.f.data else [])
  }

  /** The drops stamped on all fragments together. */
  function Reported(made: seq<Made>): (n: nat)
  {
    if made == [] then 0 else Reported(made[..|made| - 1]) + made[|made| - 1].f.oooDrop
  }

  lemma MadeSnoc(made: seq<Made>, m: Made)
    ensures forall j :: ShippedBy(made + [m], j) == ShippedBy(made, j) + (if m.id == j then m.f.data else [])
    ensures Reported(made + [m]) == Reported(made) + m.f.oooDrop
    ensures Frags(made + [m]) == Frags(made) + [m.f]
  {
    assert (made + [m])[..|made|] == made;
  }

  /** The last fragment with `n` more drops attributed to it. */
  function Bumped(made: seq<Made>, n: nat): (r: seq<Made>)
    requires made != []
    ensures |r| == |made|
  {
    var m := made[|made| - 1];
    made[..|made| - 1] + [m.(f := m.f.(oooDrop := m.f.oooDrop + n))]
  }

  lemma BumpedKeeps(made: seq<Made>, n: nat)
    requires made != []
    ensures forall j :: ShippedBy(Bumped(made, n), j) == ShippedBy(made, j)
    ensures Reported(Bumped(made, n)) == Reported(made) + n
  {
    var k := |made| - 1;
    assert Bumped(made, n)[..k] == made[..k];
  }

  lemma ShippedUnknown(made: seq<Made>, id: nat)
    requires forall k :: 0 <= k < |made| ==> made[k].id != id
    ensures ShippedBy(made, id) == []
  {
  }

  // ---------------------------------------------------------------------
  // Per-series invariants
  // ---------------------------------------------------------------------

  ghost predicate AllSound(c: Config, store: seq<Series>, logs: seq<Log>, made: seq<Made>)
  {
    && |logs| == |store|
    && (forall i :: 0 <= i < |store| ==> Sound(c, store[i], logs[i], ShippedBy(made, i)))
    && (forall k :: 0 <= k < |made| ==> made[k].id < |store| && Coherent(made[k].f))
    && (forall k :: 0 <= k < |made| ==> made[k].f.key == store[made[k].id].key)
  }

  lemma SoundUpdate(c: Config, store: seq<Series>, logs: seq<Log>, made: seq<Made>, i: nat, s: Series, l: Log)
    requires AllSound(c, store, logs, made) && i < |store| && s.key == store[i].key
    requires Sound(c, s, l, ShippedBy(made, i))
    ensures AllSound(c, store[i := s], logs[i := l], made)
  {
    hide Sound, ShippedBy, Coherent;
  }

  lemma SoundShip(c: Config, store: seq<Series>, logs: seq<Log>, made: seq<Made>, i: nat, s: Series, f: Fragment)
    requires AllSound(c, store, logs, made) && i < |store| && f.key == s.key == store[i].key && Coherent(f)
    requires Sound(c, s, logs[i], ShippedBy(made, i) + f.data)
    ensures AllSound(c, store[i := s], logs, made + [Made(i, f)])
  {
    hide Sound, ShippedBy, Coherent;
    MadeSnoc(made, Made(i, f));
    var after := made + [Made(i, f)];
    forall j | 0 <= j < |store|
      ensures Sound(c, store[i := s][j], logs[j], ShippedBy(after, j))
    {
      assert i != j ==> ShippedBy(made, j) + [] == ShippedBy(made, j);
    }
  }

  lemma SoundBumped(c: Config, store: seq<Series>, logs: seq<Log>, made: seq<Made>, n: nat)
    requires AllSound(c, store, logs, made) && made != []
    ensures AllSound(c, store, logs, Bumped(made, n))
  {
    hide Sound, ShippedBy;
    BumpedKeeps(made, n);
  }

  lemma SoundExtend(c: Config, store: seq<Series>, logs: seq<Log>, made: seq<Made>, key: Key)
    requires AllSound(c, store, logs, made)
    ensures AllSound(c, store + [Fresh(key)], logs + [Log([], [], MIN_INT64)], made)
  {
    hide Sound, ShippedBy, Coherent;
    ShippedUnknown(made, |store|);
    FreshSound(c, key);
  }

  function Marked(logs: seq<Log>, w: int): (r: seq<Log>)
    ensures |r| == |logs|
  {
    seq(|logs|, i requires 0 <= i < |logs| => logs[i].(mark := if w > logs[i].mark then w else logs[i].mark))
  }

  lemma SoundMarked(c: Config, store: seq<Series>, logs: seq<Log>, made: seq<Made>, w: int)
    requires AllSound(c, store, logs, made)
    ensures AllSound(c, store, Marked(logs, w), made)
  {
    hide Sound, ShippedBy, Coherent;
    forall i | 0 <= i < |store|
      ensures Sound(c, store[i], Marked(logs, w)[i], ShippedBy(made, i))
    {
      MarkSound(c, store[i], logs[i], ShippedBy(made, i), Marked(logs, w)[i].mark);
    }
  }

  /** The eviction flag plays no part in what a series has seen. */
  lemma SoundFlag(c: Config, store: seq<Series>, logs: seq<Log>, made: seq<Made>, i: nat, flag: bool)
    requires AllSound(c, store, logs, made) && i < |store|
    ensures AllSound(c, store[i := store[i].(inEvict := flag)], logs, made)
  {
    hide ShippedBy, Coherent;
    assert Sound(c, store[i].(inEvict := flag), logs[i], ShippedBy(made, i));
    SoundUpdate(c, store, logs, made, i, store[i].(inEvict := flag), logs[i]);
    assert logs[i := logs[i]] == logs;
  }

  // ---------------------------------------------------------------------
  // Drop totals
  // ---------------------------------------------------------------------

  function TotalLost(logs: seq<Log>): (n: nat)
  {
    if logs == [] then 0 else |logs[0].lost| + TotalLost(logs[1..])
  }

  lemma {:induction false} TotalLostUpdate(logs: seq<Log>, i: nat, l: Log)
    requires i < |logs|
    ensures TotalLost(logs[i := l]) == TotalLost(logs) - |logs[i].lost| + |l.lost|
  {
    if i == 0 {
      assert logs[0 := l][1..] == logs[1..];
    } else {
      assert logs[i := l][1..] == logs[1..][i - 1 := l];
      TotalLostUpdate(logs[1..], i - 1, l);
    }
  }

  lemma {:induction false} TotalLostMarked(logs: seq<Log>, w: int)
    ensures TotalLost(Marked(logs, w)) == TotalLost(logs)
  {
    if logs != [] {
      assert Marked(logs, w)[1..] == Marked(logs[1..], w);
      TotalLostMarked(logs[1..], w);
    }
  }

  lemma {:induction false} TotalLostSnoc(logs: seq<Log>, l: Log)
    ensures TotalLost(logs + [l]) == TotalLost(logs) + |l.lost|
  {
    if logs == [] {
      assert logs + [l] == [l];
    } else {
      assert (logs + [l])[1..] == logs[1..] + [l];
      TotalLostSnoc(logs[1..], l);
    }
  }

  // ---------------------------------------------------------------------
  // Liveness and the two advisory queues
  // ---------------------------------------------------------------------

  predicate IsLive(store: seq<Series>, live: map<Key, nat>, i: nat)
  {
    i < |store| && store[i].key in live && live[store[i].key] == i
  }

  ghost predicate Shape(store: seq<Series>, live: map<Key, nat>)
  {
    forall k :: k in live ==> live[k] < |store| && store[live[k]].key == k
  }

  /** Series no longer in the map hold nothing and are not queued for eviction. */
  ghost predicate Dormant(store: seq<Series>, live: map<Key, nat>)
  {
    forall i :: 0 <= i < |store| && !IsLive(store, live, i) ==>
      store[i].pending == [] && store[i].open == [] && !store[i].inEvict
  }

  ghost predicate HasEntry(q: Queue, i: nat, upto: int)
  {
    exists t :: Item(t, i) in q && t <= upto
  }

  /** Each series with pending points has a drain-queue entry no later than its
      earliest one. */
  ghost predicate Covered(store: seq<Series>, q: Queue)
  {
    forall i :: 0 <= i < |store| && store[i].pending != [] ==> HasEntry(q, i, store[i].pending[0].t)
  }

  /** The same, for every series but `skip`. */
  ghost predicate CoveredBut(store: seq<Series>, q: Queue, skip: nat)
  {
    forall i :: 0 <= i < |store| && i != skip && store[i].pending != [] ==> HasEntry(q, i, store[i].pending[0].t)
  }

  ghost predicate InStore(store: seq<Series>, q: Queue)
  {
    forall e :: e in q ==> e.v < |store|
  }

  lemma CoveredPop(store: seq<Series>, q: Queue, e: Item<nat>)
    requires Covered(store, q + multiset{e})
    ensures CoveredBut(store, q, e.v)
  {
    forall i | 0 <= i < |store| && i != e.v && store[i].pending != []
      ensures HasEntry(q, i, store[i].pending[0].t)
    {
      assert HasEntry(q + multiset{e}, i, store[i].pending[0].t);
      var t :| Item(t, i) in q + multiset{e} && t <= store[i].pending[0].t;
      assert Item(t, i) in q;
    }
  }

  lemma CoveredPush(store: seq<Series>, q: Queue, i: nat)
    requires i < |store| && store[i].pending != [] && CoveredBut(store, q, i)
    ensures Covered(store, q + multiset{Item(store[i].pending[0].t, i)})
  {
    var e := Item(store[i].pending[0].t, i);
    var q' := q + multiset{e};
    forall j | 0 <= j < |store| && store[j].pending != []
      ensures HasEntry(q', j, store[j].pending[0].t)
    {
      if i == j {
        assert e in q';
      } else {
        assert HasEntry(q, j, store[j].pending[0].t);
        var t :| Item(t, j) in q && t <= store[j].pending[0].t;
        assert Item(t, j) in q';
      }
    }
  }

  lemma CoveredUpdate(store: seq<Series>, q: Queue, i: nat, s: Series)
    requires i < |store| && CoveredBut(store, q, i)
    ensures CoveredBut(store[i := s], q, i)
  {
    hide HasEntry;
  }

  /** When no queue entry is ready, no series has a ready point. */
  lemma CoveredNoneReady(store: seq<Series>, h: seq<Item<nat>>, w: int)
    requires IsHeap(h) && Covered(store, multiset(h)) && (h != [] ==> h[0].t > w)
    ensures forall i :: 0 <= i < |store| ==> !HasReady(store[i], w)
  {
    if h != [] {
      RootLeastAll(h);
    }
    forall i | 0 <= i < |store|
      ensures !HasReady(store[i], w)
    {
      if store[i].pending != [] {
        assert HasEntry(multiset(h), i, store[i].pending[0].t);
      }
    }
  }

  /** `inEvict` is set exactly for the series with an entry, each has one entry
      only, and its key is no newer than the last activity. */
  ghost predicate EvictExact(store: seq<Series>, q: Queue)
  {
    && (forall e :: e in q ==> q[e] == 1 && e.v < |store| && store[e.v].inEvict && e.t <= store[e.v].lastActive)
    && (forall e, f :: e in q && f in q && e.v == f.v ==> e == f)
    && (forall i :: 0 <= i < |store| && store[i].inEvict ==> Queued(q, i))
  }

  ghost predicate Queued(q: Queue, i: nat)
  {
    exists t :: Item(t, i) in q
  }

  lemma EvictSame(store: seq<Series>, q: Queue, i: nat, s: Series)
    requires EvictExact(store, q) && i < |store|
    requires s.inEvict == store[i].inEvict && s.lastActive >= store[i].lastActive
    ensures EvictExact(store[i := s], q)
  {
    hide Queued;
  }

  lemma EvictEnqueue(store: seq<Series>, q: Queue, i: nat, s: Series)
    requires EvictExact(store, q) && i < |store|
    requires !store[i].inEvict && s.inEvict && s.lastActive >= store[i].lastActive
    ensures EvictExact(store[i := s], q + multiset{Item(s.lastActive, i)})
  {
    var e := Item(s.lastActive, i);
    var q' := q + multiset{e};
    assert forall f :: f in q ==> f.v != i;
    assert e in q';
    forall j | 0 <= j < |store| && store[i := s][j].inEvict
      ensures Queued(q', j)
    {
      if i != j {
        assert Queued(q, j);
        var t :| Item(t, j) in q;
        assert Item(t, j) in q';
      }
    }
  }

  lemma EvictOthers(store: seq<Series>, q: Queue, e: Item<nat>)
    requires EvictExact(store, q + multiset{e})
    ensures e.v < |store| && store[e.v].inEvict && e.t <= store[e.v].lastActive
    ensures forall f :: f in q ==> f in q + multiset{e} && q[f] == 1 && f.v != e.v
  {
    hide Queued;
    var all := q + multiset{e};
    assert e in all && all[e] == 1;
    forall f | f in q
      ensures f in all && q[f] == 1 && f.v != e.v
    {
      assert f in all;
      assert f != e;
    }
  }

  lemma EvictDequeue(store: seq<Series>, q: Queue, e: Item<nat>)
    requires EvictExact(store, q + multiset{e})
    ensures e.v < |store| && store[e.v].inEvict && e.t <= store[e.v].lastActive
    ensures EvictExact(store[e.v := store[e.v].(inEvict := false)], q)
  {
    EvictOthers(store, q, e);
    var all, off := q + multiset{e}, store[e.v := store[e.v].(inEvict := false)];
    forall j | 0 <= j < |store| && off[j].inEvict
      ensures Queued(q, j)
    {
      assert Queued(all, j);
      var t :| Item(t, j) in all;
      assert Item(t, j) in q;
    }
  }

  /** A stale entry goes back under the true last activity. */
  lemma EvictRequeue(store: seq<Series>, q: Queue, e: Item<nat>)
    requires EvictExact(store, q + multiset{e})
    ensures e.v < |store|
    ensures EvictExact(store, q + multiset{Item(store[e.v].lastActive, e.v)})
  {
    var s := store[e.v];
    EvictDequeue(store, q, e);
    var off := store[e.v := s.(inEvict := false)];
    EvictEnqueue(off, q, e.v, s);
    assert off[e.v := s] == store;
  }

  lemma EvictExtend(store: seq<Series>, q: Queue, s: Series)
    requires EvictExact(store, q) && !s.inEvict
    ensures EvictExact(store + [s], q)
  {
    hide Queued;
  }

  /** Entries older than the last activity of their series. */
  ghost function Stale(store: seq<Series>, q: Queue): (r: set<Item<nat>>)
  {
    set e | e in q && e.v < |store| && e.t < store[e.v].lastActive
  }

  // ---------------------------------------------------------------------
  // Progress of a drain
  // ---------------------------------------------------------------------

  ghost function StreamOf(store: seq<Series>, made: seq<Made>, i: nat): (r: seq<Point>)
    requires i < |store|
  {
    ShippedBy(made, i) + store[i].open
  }

  /** The store, the logs and the fragments. */
  datatype Ledger = Ledger(store: seq<Series>, logs: seq<Log>, made: seq<Made>)

  /** Draining series `i` from `b` ends where draining it from `a` ends. */
  ghost predicate Toward(c: Config, i: nat, w: int, a: Ledger, b: Ledger)
  {
    && i < |a.store| == |b.store| == |a.logs| == |b.logs|
    && (forall j :: 0 <= j < |a.store| && j != i ==> b.store[j] == a.store[j] && b.logs[j] == a.logs[j])
    && (forall j :: j != i ==> ShippedBy(b.made, j) == ShippedBy(a.made, j))
    && b.logs[i].mark == a.logs[i].mark && b.logs[i].accepted == a.logs[i].accepted
    && Drained(c, b.store[i], w) == Drained(c, a.store[i], w)
    && b.logs[i].lost + Lost(c, b.store[i], w) == a.logs[i].lost + Lost(c, a.store[i], w)
    && StreamOf(b.store, b.made, i) + Kept(c, b.store[i], w) == StreamOf(a.store, a.made, i) + Kept(c, a.store[i], w)
  }

  lemma TowardStart(c: Config, i: nat, w: int, a: Ledger)
    requires i < |a.store| == |a.logs|
    ensures Toward(c, i, w, a, a)
  {
  }

  lemma TowardTrans(c: Config, i: nat, w: int, a: Ledger, b: Ledger, d: Ledger)
    requires Toward(c, i, w, a, b) && Toward(c, i, w, b, d)
    ensures Toward(c, i, w, a, d)
  {
    hide ShippedBy, Drained, Lost, Kept, StreamOf;
  }

  /** What a finished drain of one series did. */
  ghost predicate DrainedOne(c: Config, i: nat, w: int, a: Ledger, b: Ledger)
  {
    && i < |a.store| == |b.store| == |a.logs| == |b.logs|
    && b.store == a.store[i := Drained(c, a.store[i], w)]
    && b.logs == a.logs[i := a.logs[i].(lost := a.logs[i].lost + Lost(c, a.store[i], w))]
    && StreamOf(b.store, b.made, i) == StreamOf(a.store, a.made, i) + Kept(c, a.store[i], w)
    && (forall j :: j != i ==> ShippedBy(b.made, j) == ShippedBy(a.made, j))
  }

  lemma TowardDone(c: Config, i: nat, w: int, a: Ledger, b: Ledger)
    requires Toward(c, i, w, a, b) && !HasReady(b.store[i], w)
    ensures DrainedOne(c, i, w, a, b)
  {
    hide ShippedBy, Drained, Lost, Kept, StreamOf;
    DrainedDone(c, b.store[i], w);
    assert b.logs[i].lost + [] == b.logs[i].lost;
    assert StreamOf(b.store, b.made, i) + [] == StreamOf(b.store, b.made, i);
  }

  /** Handling the root of a ready series is progress. */
  lemma TowardLose(c: Config, i: nat, w: int, a: Ledger, b: Ledger)
    requires i < |a.store| == |a.logs| && HasReady(a.store[i], w) && Late(a.store[i])
    requires b.store == a.store[i := Step(c, a.store[i])] && b.made == a.made
    requires b.logs == a.logs[i := a.logs[i].(lost := a.logs[i].lost + [a.store[i].pending[0]])]
    ensures Toward(c, i, w, a, b)
  {
    hide ShippedBy, Drained, Lost, Kept, Step;
    var s := a.store[i];
    var p, r := s.pending[0], Step(c, s);
    LateStepOpen(c, s);
    DrainedStep(c, s, w);
    assert (a.logs[i].lost + [p]) + Lost(c, r, w) == a.logs[i].lost + ([p] + Lost(c, r, w));
    assert [] + Kept(c, r, w) == Kept(c, r, w);
  }

  lemma TowardAppend(c: Config, i: nat, w: int, a: Ledger, b: Ledger)
    requires i < |a.store| == |a.logs| && HasReady(a.store[i], w) && !Late(a.store[i])
    requires b.store == a.store[i := Step(c, a.store[i])] && b.logs == a.logs
    requires StreamOf(b.store, b.made, i) == StreamOf(a.store, a.made, i) + [a.store[i].pending[0]]
    requires forall j :: j != i ==> ShippedBy(b.made, j) == ShippedBy(a.made, j)
    ensures Toward(c, i, w, a, b)
  {
    hide ShippedBy, StreamOf, Drained, Lost, Kept, Step;
    var s := a.store[i];
    DrainedStep(c, s, w);
    var p, r, stream := s.pending[0], Step(c, s), StreamOf(a.store, a.made, i);
    assert (stream + [p]) + Kept(c, r, w) == stream + ([p] + Kept(c, r, w));
    assert [] + Lost(c, r, w) == Lost(c, r, w);
  }

  // ---------------------------------------------------------------------
  // Draining every series
  // ---------------------------------------------------------------------

  /** Series `i` is in `b` on its way from `a` to the end of its drain. */
  ghost predicate Heading(c: Config, w: int, a: Ledger, b: Ledger, i: nat)
    requires i < |a.store| == |b.store| == |a.logs| == |b.logs|
  {
    && Drained(c, b.store[i], w) == Drained(c, a.store[i], w)
    && b.logs[i].mark == a.logs[i].mark && b.logs[i].accepted == a.logs[i].accepted
    && b.logs[i].lost + Lost(c, b.store[i], w) == a.logs[i].lost + Lost(c, a.store[i], w)
    && StreamOf(b.store, b.made, i) + Kept(c, b.store[i], w) == StreamOf(a.store, a.made, i) + Kept(c, a.store[i], w)
  }

  ghost predicate AllHeading(c: Config, w: int, a: Ledger, b: Ledger)
  {
    && |a.store| == |b.store| == |a.logs| == |b.logs|
    && forall i :: 0 <= i < |a.store| ==> Heading(c, w, a, b, i)
  }

  /** What a scan over all series does to series `i`. */
  ghost predicate ScannedAt(c: Config, w: int, a: Ledger, b: Ledger, i: nat)
    requires i < |a.store| == |b.store| == |a.logs| == |b.logs|
  {
    && b.store[i] == Drained(c, a.store[i], w)
    && b.logs[i] == a.logs[i].(lost := a.logs[i].lost + Lost(c, a.store[i], w))
    && StreamOf(b.store, b.made, i) == StreamOf(a.store, a.made, i) + Kept(c, a.store[i], w)
  }

  /** The effect of a full scan: every series drained on its own. */
  ghost predicate Scanned(c: Config, w: int, a: Ledger, b: Ledger)
  {
    && |a.store| == |b.store| == |a.logs| == |b.logs|
    && forall i :: 0 <= i < |a.store| ==> ScannedAt(c, w, a, b, i)
  }

  lemma HeadingStart(c: Config, w: int, a: Ledger)
    requires |a.store| == |a.logs|
    ensures AllHeading(c, w, a, a)
  {
  }

  lemma HeadingOne(c: Config, w: int, a: Ledger, b: Ledger, d: Ledger, k: nat)
    requires AllHeading(c, w, a, b) && DrainedOne(c, k, w, b, d)
    ensures AllHeading(c, w, a, d)
  {
    hide ShippedBy, Drained, Lost, Kept;
    forall i | 0 <= i < |a.store|
      ensures Heading(c, w, a, d, i)
    {
      assert Heading(c, w, a, b, i);
      if i == k {
        DrainedDone(c, d.store[i], w);
        assert d.logs[i].lost + [] == d.logs[i].lost;
        assert StreamOf(d.store, d.made, i) + [] == StreamOf(d.store, d.made, i);
      }
    }
  }

  lemma HeadingDone(c: Config, w: int, a: Ledger, b: Ledger)
    requires AllHeading(c, w, a, b)
    requires forall i :: 0 <= i < |b.store| ==> !HasReady(b.store[i], w)
    ensures Scanned(c, w, a, b)
  {
    hide StreamOf, Drained, Lost, Kept, HasReady;
    forall i | 0 <= i < |a.store|
      ensures ScannedAt(c, w, a, b, i)
    {
      assert Heading(c, w, a, b, i);
      DrainedDone(c, b.store[i], w);
      assert b.logs[i].lost + [] == b.logs[i].lost;
      assert StreamOf(b.store, b.made, i) + [] == StreamOf(b.store, b.made, i);
    }
  }

  predicate MarkedTo(logs: seq<Log>, w: int)
  {
    forall i :: 0 <= i < |logs| ==> w <= logs[i].mark
  }

  lemma DrainedOneMarked(c: Config, i: nat, w: int, a: Ledger, b: Ledger)
    requires DrainedOne(c, i, w, a, b) && MarkedTo(a.logs, w)
    ensures MarkedTo(b.logs, w) && |b.store| == |a.store| && !HasReady(b.store[i], w)
    ensures b.store == a.store[i := b.store[i]] && b.store[i].key == a.store[i].key
  {
    hide ShippedBy, Lost, Kept, StreamOf;
    DrainedIdentity(c, a.store[i], w);
  }

  lemma CoveredRest(store: seq<Series>, q: Queue, i: nat)
    requires CoveredBut(store, q, i) && i < |store| && store[i].pending == []
    ensures Covered(store, q)
  {
    hide HasEntry;
  }

  // ---------------------------------------------------------------------
  // The forced drain
  // ---------------------------------------------------------------------

  /** What a forced drain does to series `i`. */
  ghost predicate ForcedAt(c: Config, a: Ledger, b: Ledger, i: nat)
    requires i < |a.store| == |b.store| == |a.logs| == |b.logs|
  {
    && b.store[i] == Closed(c, Drained(c, a.store[i], MAX_INT64))
    && b.logs[i] == a.logs[i].(lost := a.logs[i].lost + Lost(c, a.store[i], MAX_INT64))
    && StreamOf(b.store, b.made, i) == StreamOf(a.store, a.made, i) + Kept(c, a.store[i], MAX_INT64)
    && b.store[i].pending == [] && b.store[i].open == []
  }

  ghost predicate SameAt(a: Ledger, b: Ledger, i: nat)
    requires i < |a.store| == |b.store| == |a.logs| == |b.logs|
  {
    b.store[i] == a.store[i] && b.logs[i] == a.logs[i] && ShippedBy(b.made, i) == ShippedBy(a.made, i)
  }

  /** Only series `i` was touched, and it was drained and closed. */
  ghost predicate ForcedOne(c: Config, a: Ledger, b: Ledger, i: nat)
  {
    && i < |a.store| == |b.store| == |a.logs| == |b.logs|
    && ForcedAt(c, a, b, i)
    && forall j :: 0 <= j < |a.store| && j != i ==> SameAt(a, b, j)
  }

  ghost predicate ForcedSo(c: Config, a: Ledger, b: Ledger, done: set<nat>)
  {
    && |a.store| == |b.store| == |a.logs| == |b.logs|
    && forall i :: 0 <= i < |a.store| ==> if i in done then ForcedAt(c, a, b, i) else SameAt(a, b, i)
  }

  ghost predicate Forced(c: Config, a: Ledger, b: Ledger)
  {
    && |a.store| == |b.store| == |a.logs| == |b.logs|
    && forall i :: 0 <= i < |a.store| ==> ForcedAt(c, a, b, i)
  }

  lemma ForcedStart(c: Config, a: Ledger)
    requires |a.store| == |a.logs|
    ensures ForcedSo(c, a, a, {})
  {
  }

  lemma ForcedStep(c: Config, a: Ledger, b: Ledger, d: Ledger, done: set<nat>, i: nat)
    requires ForcedSo(c, a, b, done) && i !in done && ForcedOne(c, b, d, i)
    ensures ForcedSo(c, a, d, done + {i})
  {
    hide ShippedBy, Drained, Lost, Kept, Closed;
    forall j | 0 <= j < |a.store|
      ensures if j in done + {i} then ForcedAt(c, a, d, j) else SameAt(a, d, j)
    {
      assert if j in done then ForcedAt(c, a, b, j) else SameAt(a, b, j);
      assert j != i ==> SameAt(b, d, j);
    }
  }

  /** Series no longer in the map have nothing left to drain. */
  lemma ForcedAll(c: Config, a: Ledger, b: Ledger, done: set<nat>, live: map<Key, nat>)
    requires ForcedSo(c, a, b, done) && Dormant(a.store, live)
    requires forall k :: k in live ==> live[k] in done
    ensures Forced(c, a, b)
  {
    hide ShippedBy, Drained, Lost, Kept;
    forall i | 0 <= i < |a.store|
      ensures ForcedAt(c, a, b, i)
    {
      if i !in done {
        assert SameAt(a, b, i) && !IsLive(a.store, live, i);
        DrainedDone(c, a.store[i], MAX_INT64);
        assert a.logs[i].lost + [] == a.logs[i].lost;
        assert StreamOf(a.store, a.made, i) + [] == StreamOf(a.store, a.made, i);
      }
    }
  }

  lemma ForcedOneKeeps(c: Config, a: Ledger, b: Ledger, i: nat, live: map<Key, nat>)
    requires ForcedOne(c, a, b, i) && Shape(a.store, live)
    ensures |b.store| == |b.logs| && Shape(b.store, live)
  {
    hide ShippedBy, Lost, Kept, StreamOf, Drained;
    DrainedIdentity(c, a.store[i], MAX_INT64);
    forall k | k in live
      ensures b.store[live[k]].key == k
    {
      if live[k] != i {
        assert SameAt(a, b, live[k]);
      }
    }
  }

  /** With nothing pending the empty queue covers everything. */
  lemma ForcedCovers(c: Config, a: Ledger, b: Ledger)
    requires Forced(c, a, b)
    ensures Covered(b.store, multiset{})
    ensures forall i :: 0 <= i < |b.store| ==> b.store[i].pending == [] && b.store[i].open == []
  {
    forall i | 0 <= i < |b.store|
      ensures b.store[i].pending == [] && b.store[i].open == []
    {
      assert ForcedAt(c, a, b, i);
    }
  }

  lemma ForcedBy(c: Config, a: Ledger, b: Ledger, d: Ledger, i: nat)
    requires DrainedOne(c, i, MAX_INT64, a, b) && b.store[i].pending == []
    requires d.store == b.store[i := Closed(c, b.store[i])] && d.logs == b.logs
    requires ShippedBy(d.made, i) == StreamOf(b.store, b.made, i)
    requires forall j :: j != i ==> ShippedBy(d.made, j) == ShippedBy(b.made, j)
    ensures ForcedOne(c, a, d, i)
  {
    hide ShippedBy, Drained, Lost, Kept;
    assert ShippedBy(d.made, i) + [] == ShippedBy(d.made, i);
  }

  lemma BumpedFrags(made: seq<Made>, n: nat, given: seq<Fragment>, q: seq<Fragment>)
    requires Frags(made) == given + q && q != []
    ensures var k := |q| - 1;
            Frags(Bumped(made, n)) == given + (q[..k] + [q[k].(oooDrop := q[k].oooDrop + n)])
  {
    var k := |q| - 1;
    var n' := |made| - 1;
    assert Frags(made)[n'] == (given + q)[n'] == q[k];
    assert forall j :: 0 <= j < n' ==> Frags(Bumped(made, n))[j] == Frags(made)[j];
  }

  // ---------------------------------------------------------------------
  // Eviction
  // ---------------------------------------------------------------------

  /** Idle beyond the threshold, with everything shipped. */
  predicate Evictable(c: Config, s: Series, maxObserved: int)
  {
    c.idle > 0 && s.pending == [] && s.open == [] && maxObserved - s.lastActive > c.idle
  }

  ghost predicate FlagsOnly(a: seq<Series>, b: seq<Series>)
  {
    |a| == |b| && forall i :: 0 <= i < |a| ==> b[i] == a[i].(inEvict := b[i].inEvict)
  }

  /** Only evictable series left the map, and one that stays keeps its place in the
      queue. */
  ghost predicate Swept(c: Config, maxObserved: int, a: seq<Series>, alive: map<Key, nat>,
                        b: seq<Series>, blive: map<Key, nat>)
  {
    && FlagsOnly(a, b)
    && (forall k :: k in blive ==> k in alive && blive[k] == alive[k])
    && (forall k :: k in alive && k !in blive ==> alive[k] < |a| && Evictable(c, a[alive[k]], maxObserved))
    && (forall k :: k in blive ==> Spared(c, maxObserved, a, b, blive[k]))
  }

  ghost predicate Spared(c: Config, maxObserved: int, a: seq<Series>, b: seq<Series>, i: nat)
    requires |a| == |b|
  {
    i < |a| && a[i].inEvict && Evictable(c, a[i], maxObserved) ==> b[i].inEvict
  }

  lemma SweptStart(c: Config, maxObserved: int, a: seq<Series>, al: map<Key, nat>)
    ensures Swept(c, maxObserved, a, al, a, al)
  {
  }

  lemma DormantLive(store: seq<Series>, live: map<Key, nat>, i: nat)
    requires Dormant(store, live) && i < |store| && store[i].inEvict
    ensures IsLive(store, live, i)
  {
  }

  lemma SweptTrans(c: Config, maxObserved: int, a: seq<Series>, al: map<Key, nat>, b: seq<Series>, bl: map<Key, nat>,
                   d: seq<Series>, dl: map<Key, nat>)
    requires Swept(c, maxObserved, a, al, b, bl) && Swept(c, maxObserved, b, bl, d, dl)
    ensures Swept(c, maxObserved, a, al, d, dl)
  {
    forall k | k in al && k !in dl
      ensures al[k] < |a| && Evictable(c, a[al[k]], maxObserved)
    {
      if k in bl {
        assert Evictable(c, b[bl[k]], maxObserved);
        assert b[bl[k]] == a[bl[k]].(inEvict := b[bl[k]].inEvict);
      }
    }
  }

  lemma FlagKeepsLive(store: seq<Series>, live: map<Key, nat>, i: nat, flag: bool)
    requires Shape(store, live) && Dormant(store, live) && i < |store| && (flag ==> IsLive(store, live, i))
    ensures var s := store[i := store[i].(inEvict := flag)]; Shape(s, live) && Dormant(s, live)
  {
    var s := store[i := store[i].(inEvict := flag)];
    forall j | 0 <= j < |s| && !IsLive(s, live, j)
      ensures s[j].pending == [] && s[j].open == [] && !s[j].inEvict
    {
      assert !IsLive(store, live, j);
    }
  }

  lemma FlagKeepsCover(store: seq<Series>, q: Queue, i: nat, flag: bool)
    requires Covered(store, q) && InStore(store, q) && i < |store|
    ensures var s := store[i := store[i].(inEvict := flag)]; Covered(s, q) && InStore(s, q)
  {
    hide HasEntry;
    var s := store[i := store[i].(inEvict := flag)];
    forall j | 0 <= j < |s| && s[j].pending != []
      ensures HasEntry(q, j, s[j].pending[0].t)
    {
      assert s[j].pending == store[j].pending;
    }
  }

  lemma RemoveKeepsLive(store: seq<Series>, live: map<Key, nat>, key: Key)
    requires Shape(store, live) && Dormant(store, live) && key in live
    requires var s := store[live[key]]; s.pending == [] && s.open == [] && !s.inEvict
    ensures Shape(store, live - {key}) && Dormant(store, live - {key})
  {
    forall j | 0 <= j < |store| && !IsLive(store, live - {key}, j)
      ensures store[j].pending == [] && store[j].open == [] && !store[j].inEvict
    {
      if IsLive(store, live, j) {
        assert store[j].key == key && j == live[key];
      }
    }
  }

  lemma StoreEntries(store: seq<Series>, q: Queue)
    requires EvictExact(store, q)
    ensures InStore(store, q)
  {
  }

  lemma StaleRequeue(store: seq<Series>, q: Queue, e: Item<nat>)
    requires EvictExact(store, q + multiset{e}) && e.v < |store| && e.t < store[e.v].lastActive
    ensures |Stale(store, q + multiset{Item(store[e.v].lastActive, e.v)})| < |Stale(store, q + multiset{e})|
  {
    hide EvictExact;
    EvictOthers(store, q, e);
    StoreEntries(store, q + multiset{e});
    var all := q + multiset{e};
    var n := Item(store[e.v].lastActive, e.v);
    assert forall f :: f in q ==> f in all && f.v < |store|;
    var x, y := Stale(store, all), Stale(store, q + multiset{n});
    assert e in all && e in x && e !in y;
    forall f | f in y
      ensures f in x - {e}
    {
      assert f != n;
      assert f in q;
    }
    SubsetSize(y, x - {e});
  }

  lemma {:induction false} SubsetSize<T>(a: set<T>, b: set<T>)
    requires a <= b
    ensures |a| <= |b|
  {
    if a != {} {
      var x :| x in a;
      SubsetSize(a - {x}, b - {x});
    }
  }

  lemma StaleDequeue(store: seq<Series>, q: Queue, e: Item<nat>, flag: bool)
    requires EvictExact(store, q + multiset{e}) && e.v < |store|
    ensures var s := store[e.v := store[e.v].(inEvict := flag)];
            |Stale(s, q)| <= |Stale(store, q + multiset{e})|
  {
    EvictOthers(store, q, e);
    var all := q + multiset{e};
    assert forall f :: f in q ==> f in all && f.v < |store|;
    var s := store[e.v := store[e.v].(inEvict := flag)];
    assert Stale(s, q) <= Stale(store, all);
    SubsetSize(Stale(s, q), Stale(store, all));
  }

  // ---------------------------------------------------------------------
  // Admission
  // ---------------------------------------------------------------------

  function IdFor(a: Ledger, live: map<Key, nat>, key: Key): (i: nat)
  {
    if key in live then live[key] else |a.store|
  }

  /** The ledger after a new incarnation was created for an unknown key. */
  function Created(a: Ledger, live: map<Key, nat>, key: Key): (b: Ledger)
  {
    if key in live then a else Ledger(a.store + [Fresh(key)], a.logs + [Log([], [], MIN_INT64)], a.made)
  }

  /** The ledger after point `p` arrived for series `i`. */
  function ArrivedAt(a: Ledger, i: nat, p: Point): (b: Ledger)
    requires i < |a.store| == |a.logs|
  {
    var l := a.logs[i];
    Ledger(a.store[i := Arrived(a.store[i], p)],
           a.logs[i := l.(accepted := l.accepted + [Arrival(p, l.mark)])], a.made)
  }

  /** The ledger once a point has been accepted for `key`. */
  function Admitted(a: Ledger, live: map<Key, nat>, key: Key, p: Point): (b: Ledger)
  {
    var b, i := Created(a, live, key), IdFor(a, live, key);
    if i < |b.store| == |b.logs| then ArrivedAt(b, i, p) else b
  }

  lemma ExtendLive(store: seq<Series>, live: map<Key, nat>, key: Key)
    requires Shape(store, live) && Dormant(store, live) && key !in live
    ensures var s, l := store + [Fresh(key)], live[key := |store|]; Shape(s, l) && Dormant(s, l)
  {
    var s, l := store + [Fresh(key)], live[key := |store|];
    forall j | 0 <= j < |s| && !IsLive(s, l, j)
      ensures s[j].pending == [] && s[j].open == [] && !s[j].inEvict
    {
      if j < |store| {
        assert !IsLive(store, live, j);
      }
    }
  }

  lemma ExtendCover(store: seq<Series>, q: Queue, key: Key)
    requires Covered(store, q) && InStore(store, q)
    ensures Covered(store + [Fresh(key)], q) && InStore(store + [Fresh(key)], q)
  {
    hide HasEntry;
    var s := store + [Fresh(key)];
    forall j | 0 <= j < |s| && s[j].pending != []
      ensures HasEntry(q, j, s[j].pending[0].t)
    {
      assert s[j] == store[j];
    }
  }

  /** A live series may gain pending points. */
  lemma ArriveLive(store: seq<Series>, live: map<Key, nat>, i: nat, p: Point)
    requires Shape(store, live) && Dormant(store, live) && IsLive(store, live, i)
    ensures var s := store[i := Arrived(store[i], p)]; Shape(s, live) && Dormant(s, live)
  {
    var s := store[i := Arrived(store[i], p)];
    forall j | 0 <= j < |s| && !IsLive(s, live, j)
      ensures s[j].pending == [] && s[j].open == [] && !s[j].inEvict
    {
      assert j != i && !IsLive(store, live, j);
    }
  }

  lemma RootAfterPush(h: seq<Point>, p: Point)
    requires IsHeap(h)
    ensures Push(h, p)[0].t == p.t || (h != [] && h[0].t <= Push(h, p)[0].t)
  {
    var g := Push(h, p);
    assert g[0] in multiset(g);
    if g[0] != p {
      assert g[0] in multiset(h);
      RootLeastAll(h);
    }
  }

  /** Enqueueing only when the new point is the earliest keeps every series covered. */
  lemma ArriveCover(store: seq<Series>, q: Queue, i: nat, p: Point)
    requires Covered(store, q) && i < |store| && IsHeap(store[i].pending)
    ensures var s := store[i := Arrived(store[i], p)];
            if s[i].pending[0].t == p.t then Covered(s, q + multiset{Item(p.t, i)}) else Covered(s, q)
  {
    var s := store[i := Arrived(store[i], p)];
    RootAfterPush(store[i].pending, p);
    assert CoveredBut(s, q, i) by {
      hide HasEntry;
      assert forall j :: 0 <= j < |s| && j != i ==> s[j] == store[j];
    }
    if s[i].pending[0].t == p.t {
      CoveredPush(s, q, i);
    } else {
      assert HasEntry(q, i, store[i].pending[0].t);
      assert HasEntry(q, i, s[i].pending[0].t);
    }
  }

  /** The outcome of a forced drain: everything appended has been shipped. */
  ghost predicate ShippedAll(c: Config, a: Ledger, b: Ledger)
  {
    && |a.store| == |b.store| == |a.logs| == |b.logs|
    && forall i :: 0 <= i < |a.store| ==>
         && b.store[i].pending == [] && b.store[i].open == []
         && ShippedBy(b.made, i) == StreamOf(a.store, a.made, i) + Kept(c, a.store[i], MAX_INT64)
         && b.logs[i] == a.logs[i].(lost := a.logs[i].lost + Lost(c, a.store[i], MAX_INT64))
  }

  lemma ForcedShipped(c: Config, a: Ledger, b: Ledger, d: Ledger)
    requires Forced(c, a, b) && FlagsOnly(b.store, d.store) && d.logs == b.logs
    requires forall j :: ShippedBy(d.made, j) == ShippedBy(b.made, j)
    ensures ShippedAll(c, a, d)
  {
    hide ShippedBy, Drained, Kept, Lost, Closed;
    forall i | 0 <= i < |a.store|
      ensures d.store[i].pending == [] && d.store[i].open == []
      ensures ShippedBy(d.made, i) == StreamOf(a.store, a.made, i) + Kept(c, a.store[i], MAX_INT64)
      ensures d.logs[i] == a.logs[i].(lost := a.logs[i].lost + Lost(c, a.store[i], MAX_INT64))
    {
      assert ForcedAt(c, a, b, i);
      assert ShippedBy(b.made, i) + [] == ShippedBy(b.made, i);
    }
  }

  /** Whatever arrived in bounded disorder was shipped, all of it and in order. */
  ghost predicate TimelyShipped(b: Ledger)
    requires |b.store| == |b.logs|
  {
    forall i :: 0 <= i < |b.store| && Timely(b.logs[i].accepted) ==>
      && b.logs[i].lost == [] && Increasing(ShippedBy(b.made, i))
      && multiset(ShippedBy(b.made, i)) == multiset(Points(b.logs[i].accepted))
  }

  lemma TimelyShippedAll(c: Config, a: Ledger, b: Ledger)
    requires AllSound(c, b.store, b.logs, b.made) && ShippedAll(c, a, b)
    ensures TimelyShipped(b)
  {
    hide ShippedBy, Drained, Kept, Lost, Sound, Timely, StreamOf;
    forall i | 0 <= i < |b.store| && Timely(b.logs[i].accepted)
      ensures b.logs[i].lost == [] && Increasing(ShippedBy(b.made, i))
      ensures multiset(ShippedBy(b.made, i)) == multiset(Points(b.logs[i].accepted))
    {
      TimelyShipsSorted(c, b.store[i], b.logs[i], ShippedBy(b.made, i));
    }
  }
}
