/**
 The streaming fragment encoder: the heap-driven watermark drain, the forced
 drain, drop attribution and idle eviction.
 */
module FragmentEncoder {
  import opened Common
  import opened MinHeap
  import opened ReorderSeries
  import opened ReorderState

  class Encoder {
    const c: Config

    var store: seq<Series>
    var live: map<Key, nat>
    var drainQueue: seq<Item<nat>>
    var evictQueue: seq<Item<nat>>
    var maxObserved: int
    var queued: seq<Fragment>
    var dropped: nat
    var lastReported: nat
    var evicted: nat

    /** What each series has seen, every fragment ever produced, and those
        already handed out. */
    ghost var logs: seq<Log>
    ghost var made: seq<Made>
    ghost var given: seq<Fragment>

    /** Series, fragments and drop totals agree. */
    ghost predicate Books()
      reads `store, `dropped, `lastReported, `queued, `logs, `made, `given
    {
      && c.cap > 0
      && AllSound(c, store, logs, made)
      && dropped == TotalLost(logs)
      && lastReported == Reported(made) <= dropped
      && Frags(made) == given + queued
    }

    /** The series map and both queues refer to the right series. */
    ghost predicate Indexes()
      reads `store, `live, `drainQueue, `evictQueue
    {
      && Shape(store, live) && Dormant(store, live)
      && IsHeap(drainQueue) && InStore(store, multiset(drainQueue))
      && IsHeap(evictQueue) && EvictExact(store, multiset(evictQueue))
    }

    ghost predicate Valid()
      reads `store, `live, `drainQueue, `evictQueue, `dropped, `lastReported, `queued, `logs, `made, `given
    {
      Books() && Indexes() && Covered(store, multiset(drainQueue))
    }

    ghost function Ledger(): (r: Ledger)
      reads `store, `logs, `made
    {
      ReorderState.Ledger(store, logs, made)
    }

    /** Everything appended for series `i` so far, shipped or still open. */
    ghost function Stream(i: nat): (r: seq<Point>)
      reads `store, `made
      requires i < |store|
    {
      StreamOf(store, made, i)
    }

    constructor (config: Config)
      requires config.cap > 0
      ensures Valid() && c == config && store == [] && live == map[] && maxObserved == 0
      ensures made == [] && dropped == 0 && evicted == 0
    {
      c := config;
      store, live, drainQueue, evictQueue := [], map[], [], [];
      maxObserved, queued, dropped, lastReported, evicted := 0, [], 0, 0, 0;
      logs, made, given := [], [], [];
    }

    // -------------------------------------------------------------------
    // One point of one series
    // -------------------------------------------------------------------

    /** Drops the root of series `i`, which came too late. */
    method LosePoint(i: nat)
      requires Books() && Indexes()
      requires i < |store| && store[i].pending != [] && Late(store[i])
      modifies `store, `dropped, `logs
      ensures Books() && Indexes()
      ensures store == old(store[i := Step(c, store[i])])
      ensures logs == old(logs[i := logs[i].(lost := logs[i].lost + [store[i].pending[0]])])
      ensures Stream(i) == old(Stream(i))
    {
      hide Sound, ShippedBy, EvictExact, TotalLost, Reported, Coherent, Pop;
      ghost var s, l := store[i], logs[i];
      ghost var s' := s.(pending := Pop(s.pending));
      ghost var l' := l.(lost := l.lost + [s.pending[0]]);
      LateSound(c, s, l, ShippedBy(made, i));
      SoundUpdate(c, store, logs, made, i, s', l');
      TotalLostUpdate(logs, i, l');
      EvictSame(store, multiset(evictQueue), i, s');
      dropped := dropped + 1;
      store := store[i := store[i].(pending := Pop(store[i].pending))];
      logs := logs[i := l'];
    }

    /** Appends the root of series `i` to its open chunk, with room to spare. */
    method AppendPoint(i: nat)
      requires Books() && Indexes()
      requires i < |store| && store[i].pending != [] && !Late(store[i]) && store[i].pending[0].t <= logs[i].mark
      requires |store[i].open| + 1 < c.cap
      modifies `store
      ensures Books() && Indexes()
      ensures store == old(store[i := Step(c, store[i])])
      ensures Stream(i) == old(Stream(i)) + [old(store[i].pending[0])]
    {
      hide Sound, ShippedBy, EvictExact, TotalLost, Reported, Coherent, Pop;
      ghost var s := store[i];
      var p := store[i].pending[0];
      AppendSound(c, s, logs[i], ShippedBy(made, i));
      SoundUpdate(c, store, logs, made, i, Appended(s), logs[i]);
      assert logs[i := logs[i]] == logs;
      EvictSame(store, multiset(evictQueue), i, Appended(s));
      assert (ShippedBy(made, i) + s.open) + [p] == ShippedBy(made, i) + (s.open + [p]);
      store := store[i := store[i].(pending := Pop(store[i].pending), open := store[i].open + [p], last := Some(p.t))];
    }

    /** Ships the open chunk of series `i`, in state `s`, with the drops since the
        last fragment, and makes the series a candidate for eviction. */
    method Ship(i: nat, s: Series)
      requires Books() && Indexes()
      requires i < |store| && IsLive(store, live, i) && s.open != []
      requires s.key == store[i].key && s.lastActive == store[i].lastActive && s.inEvict == store[i].inEvict
      requires Sound(c, Flushed(c, s), logs[i], ShippedBy(made, i) + s.open)
      modifies `store, `evictQueue, `queued, `lastReported, `made
      ensures Books() && Indexes()
      ensures store == old(store)[i := Flushed(c, s)]
      ensures made == old(made) + [Made(i, FragmentOf(s, dropped - old(lastReported), maxObserved - c.grace))]
      ensures queued != [] && lastReported == dropped
    {
      hide Sound, ShippedBy, Indexes, TotalLost, Reported, Coherent;
      var f := FragmentOf(s, dropped - lastReported, maxObserved - c.grace);
      ghost var m := Made(i, f);
      SoundShip(c, store, logs, made, i, Flushed(c, s), f);
      MadeSnoc(made, m);
      assert (given + queued) + [f] == given + (queued + [f]);
      MakeCandidate(i, s);
      queued := queued + [f];
      lastReported := dropped;
      made := made + [m];
    }

    /** Closes the chunk of series `i` and queues the series for eviction once. */
    method MakeCandidate(i: nat, s: Series)
      requires Indexes() && i < |store| && IsLive(store, live, i)
      requires s.key == store[i].key && s.lastActive == store[i].lastActive && s.inEvict == store[i].inEvict
      modifies `store, `evictQueue
      ensures Indexes() && store == old(store)[i := Flushed(c, s)]
      ensures store[i].open == [] && (store[i].inEvict <==> s.inEvict || c.idle > 0)
    {
      hide EvictExact, IsHeap, Push;
      if c.idle > 0 && !s.inEvict {
        EvictEnqueue(store, multiset(evictQueue), i, Flushed(c, s));
        PushHeap(evictQueue, Item(s.lastActive, i));
        evictQueue := Push(evictQueue, Item(s.lastActive, i));
      } else {
        EvictSame(store, multiset(evictQueue), i, Flushed(c, s));
      }
      store := store[i := s.(open := [], inEvict := s.inEvict || c.idle > 0)];
    }

    /** Appends the root of series `i` and ships the chunk it fills, which then has
        exactly as many points as a chunk may. */
    method FillChunk(i: nat)
      requires Books() && Indexes()
      requires i < |store| && store[i].pending != [] && !Late(store[i]) && store[i].pending[0].t <= logs[i].mark
      requires |store[i].open| + 1 >= c.cap
      modifies `store, `evictQueue, `queued, `lastReported, `made
      ensures Books() && Indexes()
      ensures store == old(store[i := Step(c, store[i])])
      ensures Stream(i) == old(Stream(i)) + [old(store[i].pending[0])]
      ensures forall j :: j != i ==> ShippedBy(made, j) == old(ShippedBy(made, j))
      ensures |made| == old(|made|) + 1 && made[|made| - 1].id == i
      ensures made[|made| - 1].f.count == |made[|made| - 1].f.data| == c.cap
    {
      hide Sound, ShippedBy, EvictExact, TotalLost, Reported, Coherent, Pop;
      ghost var s, before := store[i], made;
      OpenBelowCap(i);
      var p := store[i].pending[0];
      FillSound(c, s, logs[i], ShippedBy(made, i));
      var full := store[i].(pending := Pop(store[i].pending), open := store[i].open + [p], last := Some(p.t));
      assert IsLive(store, live, i);
      Ship(i, full);
      MadeSnoc(before, made[|made| - 1]);
      assert forall j :: j != i ==> ShippedBy(before, j) + [] == ShippedBy(before, j);
      assert (ShippedBy(before, i) + s.open) + [p] == (ShippedBy(before, i) + (s.open + [p])) + [];
    }

    lemma OpenBelowCap(i: nat)
      requires Books() && i < |store|
      ensures |store[i].open| < c.cap
    {
      hide ShippedBy, TotalLost, Reported, Coherent;
      assert Sound(c, store[i], logs[i], ShippedBy(made, i));
    }

    // -------------------------------------------------------------------
    // Draining
    // -------------------------------------------------------------------

    /** Appends or drops every point of series `i` up to `w`. */
    method DrainSeries(i: nat, w: int)
      requires Books() && Indexes() && i < |store| && w <= logs[i].mark
      modifies `store, `dropped, `logs, `evictQueue, `queued, `lastReported, `made
      ensures Books() && Indexes()
      ensures DrainedOne(c, i, w, old(Ledger()), Ledger())
    {
      assert |logs| == |store|;
      hide Books, Indexes, Toward, DrainedOne;
      ghost var a := Ledger();
      TowardStart(c, i, w, a);
      while HasReady(store[i], w)
        invariant Books() && Indexes() && i < |store| == |logs| && w <= logs[i].mark
        invariant Toward(c, i, w, a, Ledger())
        decreases |store[i].pending|
      {
        ghost var b := Ledger();
        DrainStep(i, w);
        TowardTrans(c, i, w, a, b, Ledger());
      }
      TowardDone(c, i, w, a, Ledger());
    }

    /** One iteration of the drain loop. */
    method DrainStep(i: nat, w: int)
      requires Books() && Indexes() && i < |store| == |logs| && w <= logs[i].mark && HasReady(store[i], w)
      modifies `store, `dropped, `logs, `evictQueue, `queued, `lastReported, `made
      ensures Books() && Indexes() && |store| == old(|store|) == |logs| && w <= logs[i].mark
      ensures |store[i].pending| < old(|store[i].pending|)
      ensures Toward(c, i, w, old(Ledger()), Ledger())
    {
      hide Books, Indexes, ShippedBy, StreamOf, Toward;
      ghost var a := Ledger();
      if Late(store[i]) {
        LosePoint(i);
        TowardLose(c, i, w, a, Ledger());
      } else {
        if |store[i].open| + 1 >= c.cap {
          FillChunk(i);
        } else {
          AppendPoint(i);
        }
        TowardAppend(c, i, w, a, Ledger());
      }
    }

    /** Drains the series of the earliest queue entry, and queues it again under
        its earliest remaining point. */
    method DrainEntry(w: int) returns (ghost i: nat)
      requires Valid() && MarkedTo(logs, w)
      requires drainQueue != [] && drainQueue[0].t <= w
      modifies `store, `drainQueue, `dropped, `logs, `evictQueue, `queued, `lastReported, `made
      ensures Valid() && MarkedTo(logs, w)
      ensures Ready(drainQueue, w) < old(Ready(drainQueue, w))
      ensures DrainedOne(c, i, w, old(Ledger()), Ledger())
    {
      hide Books, DrainedOne, HasReady, Covered, CoveredBut, Ready, Pop, Push, EvictExact, Dormant, IsHeap;
      ghost var e := drainQueue[0];
      i := e.v;
      assert i < |store| == |logs| by { InQueue(); }
      PopHeap(drainQueue);
      ReadyPop(drainQueue, w);
      CoveredPop(store, multiset(Pop(drainQueue)), e);
      var id := drainQueue[0].v;
      drainQueue := Pop(drainQueue);
      ghost var a, q := Ledger(), drainQueue;
      DrainSeries(id, w);
      DrainedOneMarked(c, i, w, a, Ledger());
      CoveredUpdate(a.store, multiset(q), i, store[i]);
      Requeue(id, w);
    }

    lemma InQueue()
      requires Books() && Indexes() && drainQueue != []
      ensures drainQueue[0].v < |store| == |logs|
    {
      assert drainQueue[0] in multiset(drainQueue);
    }

    method Requeue(i: nat, w: int)
      requires Indexes() && i < |store| && CoveredBut(store, multiset(drainQueue), i) && !HasReady(store[i], w)
      modifies `drainQueue
      ensures Indexes() && Covered(store, multiset(drainQueue))
      ensures Ready(drainQueue, w) == old(Ready(drainQueue, w))
    {
      hide Covered, CoveredBut, Ready, Push, EvictExact, Dormant, IsHeap;
      if store[i].pending != [] {
        var e := Item(store[i].pending[0].t, i);
        CoveredPush(store, multiset(drainQueue), i);
        PushHeap(drainQueue, e);
        ReadyPush(drainQueue, e, w);
        drainQueue := Push(drainQueue, e);
      } else {
        CoveredRest(store, multiset(drainQueue), i);
      }
    }

    /** The heap-driven drain has the effect of draining every series. */
    method DrainReady(w: int)
      requires Valid()
      modifies `store, `drainQueue, `dropped, `logs, `evictQueue, `queued, `lastReported, `made
      ensures Valid()
      ensures Scanned(c, w, old(Ledger()).(logs := Marked(old(logs), w)), Ledger())
      ensures forall i :: 0 <= i < |store| ==> !HasReady(store[i], w)
    {
      hide Valid, AllHeading, DrainedOne, Scanned, HasReady, Marked, MarkedTo, Ready;
      MarkAll(w);
      ghost var a := Ledger();
      HeadingStart(c, w, a);
      while drainQueue != [] && drainQueue[0].t <= w
        invariant Valid() && MarkedTo(logs, w) && AllHeading(c, w, a, Ledger())
        decreases Ready(drainQueue, w)
      {
        ghost var b := Ledger();
        ghost var i := DrainEntry(w);
        HeadingOne(c, w, a, b, Ledger(), i);
      }
      NoneReady(w);
      HeadingDone(c, w, a, Ledger());
    }

    ghost method MarkAll(w: int)
      requires Valid()
      modifies `logs
      ensures Valid() && logs == Marked(old(logs), w) && MarkedTo(logs, w) && |store| == |logs|
    {
      hide Sound, ShippedBy, TotalLost, Reported, Coherent;
      SoundMarked(c, store, logs, made, w);
      TotalLostMarked(logs, w);
      logs := Marked(logs, w);
    }

    lemma NoneReady(w: int)
      requires Valid() && (drainQueue != [] ==> drainQueue[0].t > w)
      ensures forall i :: 0 <= i < |store| ==> !HasReady(store[i], w)
    {
      CoveredNoneReady(store, drainQueue, w);
    }

    // -------------------------------------------------------------------
    // Admission
    // -------------------------------------------------------------------

    /** The series of `key`; an unknown or evicted one starts afresh. */
    method GetSeries(key: Key) returns (i: nat)
      requires Valid()
      modifies `store, `live, `logs
      ensures Valid() && IsLive(store, live, i) && store[i].key == key && |store| == |logs|
      ensures i == IdFor(old(Ledger()), old(live), key) && Ledger() == Created(old(Ledger()), old(live), key)
      ensures live == old(live)[key := i]
    {
      hide Sound, ShippedBy, TotalLost, Reported, Coherent, Covered, Dormant, EvictExact, IsHeap;
      if key in live {
        assert live == live[key := live[key]];
        return live[key];
      }
      SoundExtend(c, store, logs, made, key);
      TotalLostSnoc(logs, Log([], [], MIN_INT64));
      ExtendLive(store, live, key);
      ExtendCover(store, multiset(drainQueue), key);
      EvictExtend(store, multiset(evictQueue), Fresh(key));
      i := |store|;
      live := live[key := i];
      store := store + [Series(key, [], [], None, MIN_INT64, false)];
      logs := logs + [Log([], [], MIN_INT64)];
    }

    /** Buffers a point, and queues its series if the point is its earliest. */
    method Buffer(i: nat, p: Point)
      requires Valid() && IsLive(store, live, i) && IsMs(p.t)
      modifies `store, `drainQueue, `logs
      ensures Valid() && Ledger() == ArrivedAt(old(Ledger()), i, p)
    {
      hide Sound, ShippedBy, TotalLost, Reported, Coherent, Covered, Dormant, EvictExact, IsHeap, Push;
      ghost var s, l := store[i], logs[i];
      ghost var l' := l.(accepted := l.accepted + [Arrival(p, l.mark)]);
      ArriveSound(c, s, l, ShippedBy(made, i), p);
      SoundUpdate(c, store, logs, made, i, Arrived(s, p), l');
      TotalLostUpdate(logs, i, l');
      ArriveLive(store, live, i, p);
      SoundHeap(i);
      ArriveCover(store, multiset(drainQueue), i, p);
      EvictSame(store, multiset(evictQueue), i, Arrived(s, p));
      PushHeap(drainQueue, Item(p.t, i));
      var active := if p.t > store[i].lastActive then p.t else store[i].lastActive;
      store := store[i := store[i].(pending := Push(store[i].pending, p), lastActive := active)];
      logs := logs[i := l'];
      if store[i].pending[0].t == p.t {
        drainQueue := Push(drainQueue, Item(p.t, i));
      }
    }

    lemma SoundHeap(i: nat)
      requires Books() && i < |store|
      ensures IsHeap(store[i].pending)
    {
      assert Sound(c, store[i], logs[i], ShippedBy(made, i));
    }

    /** Accepts a sample and drains every series up to the new watermark. */
    method AddSample(key: Key, t: int, v: int) returns (ghost i: nat)
      requires Valid() && IsMs(t)
      modifies this
      ensures Valid() && maxObserved == (if t > old(maxObserved) then t else old(maxObserved))
      ensures i == IdFor(old(Ledger()), old(live), key) && live == old(live)[key := i]
      ensures var w, a := maxObserved - c.grace, Admitted(old(Ledger()), old(live), key, Item(t, v));
              Scanned(c, w, a.(logs := Marked(a.logs, w)), Ledger())
      ensures forall j, p :: 0 <= j < |store| && p in multiset(store[j].pending) ==> maxObserved - c.grace < p.t
      ensures evicted == old(evicted) && given == old(given)
    {
      hide Valid, Scanned, HasReady, Arrived, Marked, Created, IdFor;
      if t > maxObserved {
        maxObserved := t;
      }
      var id := GetSeries(key);
      i := id;
      Buffer(id, Item(t, v));
      DrainReady(maxObserved - c.grace);
      PendingNewer(maxObserved - c.grace);
    }

    lemma PendingNewer(w: int)
      requires Valid() && forall j :: 0 <= j < |store| ==> !HasReady(store[j], w)
      ensures forall j, p :: 0 <= j < |store| && p in multiset(store[j].pending) ==> w < p.t
    {
      forall j, p | 0 <= j < |store| && p in multiset(store[j].pending)
        ensures w < p.t
      {
        assert Sound(c, store[j], logs[j], ShippedBy(made, j));
        RootLeastAll(store[j].pending);
      }
    }

    // -------------------------------------------------------------------
    // The forced drain
    // -------------------------------------------------------------------

    method FlushOpen(i: nat)
      requires Books() && Indexes() && IsLive(store, live, i)
      modifies `store, `evictQueue, `queued, `lastReported, `made
      ensures Books() && Indexes()
      ensures store == old(store)[i := Closed(c, old(store[i]))]
      ensures ShippedBy(made, i) == old(Stream(i))
      ensures forall j :: j != i ==> ShippedBy(made, j) == old(ShippedBy(made, j))
    {
      hide Sound, ShippedBy, Indexes, TotalLost, Reported, Coherent;
      if store[i].open == [] {
        assert ShippedBy(made, i) + [] == ShippedBy(made, i);
        return;
      }
      ghost var before := made;
      FlushSound(c, store[i], logs[i], ShippedBy(made, i));
      Ship(i, store[i]);
      MadeSnoc(before, made[|made| - 1]);
      assert forall j :: j != i ==> ShippedBy(before, j) + [] == ShippedBy(before, j);
    }

    /** Drains series `i` completely and ships what is left of it. */
    method ForceSeries(i: nat)
      requires Books() && Indexes() && |store| == |logs| && IsLive(store, live, i) && MarkedTo(logs, MAX_INT64)
      modifies `store, `dropped, `logs, `evictQueue, `queued, `lastReported, `made
      ensures Books() && Indexes() && MarkedTo(logs, MAX_INT64)
      ensures ForcedOne(c, old(Ledger()), Ledger(), i)
    {
      hide Books, Indexes, ShippedBy, StreamOf, DrainedOne, ForcedOne, Closed, HasReady;
      ghost var a := Ledger();
      DrainSeries(i, MAX_INT64);
      ghost var b := Ledger();
      DrainedOneMarked(c, i, MAX_INT64, a, b);
      NothingPending(i);
      FlushOpen(i);
      ForcedBy(c, a, b, Ledger(), i);
    }

    lemma NothingPending(i: nat)
      requires Books() && i < |store| && !HasReady(store[i], MAX_INT64)
      ensures store[i].pending == []
    {
      assert Sound(c, store[i], logs[i], ShippedBy(made, i));
      if store[i].pending != [] {
        PendingMs(c, store[i], logs[i], ShippedBy(made, i));
      }
    }

    ghost predicate AtRest()
      reads `store
    {
      forall i :: 0 <= i < |store| ==> store[i].pending == [] && store[i].open == []
    }

    /** Every series in the map, in whatever order the map yields them. */
    method ForceAll()
      requires Valid()
      modifies `store, `drainQueue, `dropped, `logs, `evictQueue, `queued, `lastReported, `made
      ensures Valid() && AtRest()
      ensures Forced(c, old(Ledger()).(logs := Marked(old(logs), MAX_INT64)), Ledger())
    {
      hide Books, Forced, Marked, MarkedTo, Shape, Dormant, Covered, EvictExact;
      MarkAll(MAX_INT64);
      ForceLoop();
      assert IsHeap<nat>([]) && InStore(store, multiset([]));
      drainQueue := [];
    }

    method ForceLoop()
      requires Books() && Indexes() && |store| == |logs| && Shape(store, live) && Dormant(store, live)
      requires MarkedTo(logs, MAX_INT64)
      modifies `store, `dropped, `logs, `evictQueue, `queued, `lastReported, `made
      ensures Books() && Indexes() && AtRest() && Covered(store, multiset{})
      ensures Forced(c, old(Ledger()), Ledger())
    {
      hide Books, Indexes, Shape, Dormant, IsLive, ForcedSo, ForcedOne, Forced, MarkedTo, Covered;
      ghost var a, done := Ledger(), {};
      var todo := live.Keys;
      ForcedStart(c, a);
      while todo != {}
        invariant Books() && Indexes() && |store| == |logs| && MarkedTo(logs, MAX_INT64)
        invariant todo <= live.Keys && Shape(store, live) && ForcedSo(c, a, Ledger(), done)
        invariant forall k :: k in live ==> (live[k] in done <==> k !in todo)
        decreases |todo|
      {
        var k :| k in todo;
        ghost var b := Ledger();
        ShapeLive(k);
        ForceSeries(live[k]);
        ForcedStep(c, a, b, Ledger(), done, live[k]);
        ForcedOneKeeps(c, b, Ledger(), live[k], live);
        done := done + {live[k]};
        todo := todo - {k};
      }
      ForcedAll(c, a, Ledger(), done, live);
      ForcedCovers(c, a, Ledger());
    }

    lemma ShapeLive(k: Key)
      requires k in live && Shape(store, live)
      ensures IsLive(store, live, live[k])
      ensures forall j :: j in live && j != k ==> live[j] != live[k]
    {
    }

    /** Drops no fragment carries yet go to the fragment queued last. */
    method AttributeResidual()
      requires Valid()
      modifies `queued, `lastReported, `made
      ensures Valid() && |made| == old(|made|)
      ensures forall j :: ShippedBy(made, j) == old(ShippedBy(made, j))
      ensures queued != [] ==> lastReported == dropped
    {
      hide Indexes, AllSound, ShippedBy, TotalLost, Reported, Covered, Bumped;
      if dropped > lastReported && |queued| > 0 {
        var delta, k := dropped - lastReported, |queued| - 1;
        BumpedKeeps(made, delta);
        BumpedFrags(made, delta, given, queued);
        SoundBumped(c, store, logs, made, delta);
        queued := queued[..k] + [queued[k].(oooDrop := queued[k].oooDrop + delta)];
        made := Bumped(made, delta);
        lastReported := dropped;
      }
    }

    // -------------------------------------------------------------------
    // Eviction
    // -------------------------------------------------------------------

    ghost function Staleness(): (n: nat)
      reads `store, `evictQueue
    {
      |Stale(store, multiset(evictQueue))|
    }

    /** The root entry is out of date; it goes back under the real last activity. */
    method RequeueEntry()
      requires Valid() && evictQueue != []
      requires evictQueue[0].v < |store| && store[evictQueue[0].v].lastActive > evictQueue[0].t
      modifies `evictQueue
      ensures Valid() && Staleness() < old(Staleness())
    {
      hide Books, Covered, Dormant, EvictExact, IsHeap, Pop, Push, Stale;
      ghost var e, q := evictQueue[0], multiset(Pop(evictQueue));
      assert multiset(evictQueue) == q + multiset{e};
      PopHeap(evictQueue);
      EvictRequeue(store, q, e);
      StaleRequeue(store, q, e);
      var id := evictQueue[0].v;
      PushHeap(Pop(evictQueue), Item(store[id].lastActive, id));
      evictQueue := Push(Pop(evictQueue), Item(store[id].lastActive, id));
    }

    /** Takes the root entry off the queue. */
    method DropEntry() returns (id: nat)
      requires Valid() && evictQueue != []
      modifies `store, `evictQueue
      ensures Valid() && Staleness() <= old(Staleness()) && |evictQueue| < old(|evictQueue|)
      ensures id == old(evictQueue[0].v) < old(|store|) && old(IsLive(store, live, id))
      ensures store == old(store[id := store[id].(inEvict := false)])
    {
      hide AllSound, TotalLost, Reported, Covered, Dormant, EvictExact, IsHeap, Pop, Stale;
      ghost var e, q := evictQueue[0], multiset(Pop(evictQueue));
      assert multiset(evictQueue) == q + multiset{e};
      PopHeap(evictQueue);
      EvictDequeue(store, q, e);
      StaleDequeue(store, q, e, false);
      SoundFlag(c, store, logs, made, e.v, false);
      FlagKeepsLive(store, live, e.v, false);
      FlagKeepsCover(store, multiset(drainQueue), e.v, false);
      DormantLive(store, live, e.v);
      id := evictQueue[0].v;
      evictQueue := Pop(evictQueue);
      store := store[id := store[id].(inEvict := false)];
    }

    method Evict(id: nat)
      requires Valid() && IsLive(store, live, id) && Evictable(c, store[id], maxObserved) && !store[id].inEvict
      modifies `live, `evicted
      ensures Valid() && live == old(live) - {store[id].key} && evicted == old(evicted) + 1
      ensures |live| == old(|live|) - 1
    {
      hide Books, Covered, Dormant, EvictExact, IsHeap;
      var key := store[id].key;
      RemoveKeepsLive(store, live, key);
      assert (live - {key}).Keys == live.Keys - {key};
      live := live - {key};
      evicted := evicted + 1;
    }

    /** Handles the most idle queue entry.  Its series is always live: a series
        leaves the map only together with its entry. */
    method SweepOne()
      requires Valid() && c.idle > 0 && evictQueue != []
      modifies `store, `live, `evictQueue, `evicted
      ensures Valid() && Swept(c, maxObserved, old(store), old(live), store, live)
      ensures evicted + |live| == old(evicted + |live|)
      ensures Staleness() < old(Staleness()) || (Staleness() <= old(Staleness()) && |evictQueue| < old(|evictQueue|))
    {
      hide Valid, Staleness;
      EntryInStore();
      var id := evictQueue[0].v;
      if store[id].lastActive > evictQueue[0].t {
        RequeueEntry();
      } else {
        id := DropEntry();
        if store[id].pending == [] && store[id].open == [] && maxObserved - store[id].lastActive > c.idle {
          OnlyKey(id);
          Evict(id);
        }
      }
    }

    lemma OnlyKey(id: nat)
      requires Valid() && IsLive(store, live, id)
      ensures forall j :: j in live && j != store[id].key ==> live[j] != id
    {
      ShapeLive(store[id].key);
    }

    lemma EntryInStore()
      requires Valid() && evictQueue != []
      ensures evictQueue[0].v < |store|
    {
      assert evictQueue[0] in multiset(evictQueue);
    }

    /** Removes exactly the candidates that are idle past the threshold and have nothing
        left to ship; every entry that stays is newer than the cutoff. */
    method Sweep()
      requires Valid()
      modifies `store, `live, `evictQueue, `evicted
      ensures Valid() && Swept(c, maxObserved, old(store), old(live), store, live)
      ensures evicted + |live| == old(evicted + |live|)
      ensures c.idle > 0 ==> forall e :: e in multiset(evictQueue) ==> e.t > maxObserved - c.idle
      ensures forall k :: k in old(live) && k !in live ==> old(live[k]) < |store| && Gone(store[old(live[k])])
      ensures forall k :: k in live && live[k] < |store| == old(|store|) && old(store)[live[k]].inEvict ==>
                !Gone(store[live[k]])
    {
      hide Valid, Swept, Staleness, Gone;
      SweptStart(c, maxObserved, store, live);
      if c.idle > 0 {
        while evictQueue != [] && evictQueue[0].t <= maxObserved - c.idle
          invariant Valid() && Swept(c, maxObserved, old(store), old(live), store, live)
          invariant evicted + |live| == old(evicted + |live|)
          decreases Staleness(), |evictQueue|
        {
          ghost var s, l := store, live;
          SweepOne();
          SweptTrans(c, maxObserved, old(store), old(live), s, l, store, live);
        }
        RestNewer();
      }
      SweptExactly(old(store), old(live));
    }

    /** Nothing buffered, nothing open, and idle for longer than the threshold. */
    predicate Gone(s: Series)
      reads `maxObserved
    {
      c.idle > 0 && s.pending == [] && s.open == [] && s.lastActive + c.idle < maxObserved
    }

    lemma SweptExactly(store0: seq<Series>, live0: map<Key, nat>)
      requires Valid() && Swept(c, maxObserved, store0, live0, store, live)
      requires c.idle > 0 ==> forall e :: e in multiset(evictQueue) ==> e.t > maxObserved - c.idle
      ensures forall k :: k in live0 && k !in live ==> live0[k] < |store| && Gone(store[live0[k]])
      ensures forall k :: k in live && live[k] < |store| == |store0| && store0[live[k]].inEvict ==> !Gone(store[live[k]])
    {
      hide Books, Covered, Dormant, IsHeap;
      forall k | k in live && live[k] < |store| && store0[live[k]].inEvict
        ensures !Gone(store[live[k]])
      {
        var i := live[k];
        assert Spared(c, maxObserved, store0, store, i);
        if store[i].inEvict {
          assert Queued(multiset(evictQueue), i);
          var t :| Item(t, i) in multiset(evictQueue);
        }
      }
    }

    lemma RestNewer()
      requires Valid()
      ensures evictQueue != [] ==> forall e :: e in multiset(evictQueue) ==> e.t >= evictQueue[0].t
    {
      if evictQueue != [] {
        RootLeastAll(evictQueue);
      }
    }

    // -------------------------------------------------------------------
    // Handing out fragments
    // -------------------------------------------------------------------

    /** Ships everything, attributes every drop and evicts idle series. */
    method DrainForced()
      requires Valid()
      modifies this
      ensures Valid() && c.cap > 0 && given == old(given) && maxObserved == old(maxObserved)
      ensures ShippedAll(c, old(Ledger()).(logs := Marked(old(logs), MAX_INT64)), Ledger())
      ensures TimelyShipped(Ledger())
      ensures queued != [] ==> lastReported == dropped
      ensures forall k :: k in live ==> k in old(live) && live[k] == old(live[k])
      ensures forall k :: k in old(live) && k !in live ==>
                old(live[k]) < |store| && Evictable(c, store[old(live[k])], maxObserved)
      ensures evicted + |live| == old(evicted + |live|)
      ensures c.idle > 0 ==> forall e :: e in multiset(evictQueue) ==> e.t > maxObserved - c.idle
    {
      hide Valid, Forced, ShippedAll, Marked, TimelyShipped, Swept, FlagsOnly, Evictable, AllSound, Gone;
      ghost var a := Ledger().(logs := Marked(logs, MAX_INT64));
      ForceAll();
      ghost var b := Ledger();
      AttributeResidual();
      ghost var s, l := store, live;
      Sweep();
      SweptOut(s, l, store, live);
      ForcedShipped(c, a, b, Ledger());
      BooksSound();
      TimelyShippedAll(c, a, Ledger());
    }

    lemma BooksSound()
      requires Valid()
      ensures c.cap > 0 && AllSound(c, store, logs, made)
    {
    }

    lemma SweptOut(a: seq<Series>, al: map<Key, nat>, b: seq<Series>, bl: map<Key, nat>)
      requires Swept(c, maxObserved, a, al, b, bl)
      ensures FlagsOnly(a, b)
      ensures forall k :: k in bl ==> k in al && bl[k] == al[k]
      ensures forall k :: k in al && k !in bl ==> al[k] < |b| && Evictable(c, b[al[k]], maxObserved)
    {
    }

    method Drain(force: bool) returns (out: seq<Fragment>)
      requires Valid()
      modifies this
      ensures Valid() && queued == [] && given == old(given) + out == Frags(made)
      ensures !force ==>
                live == old(live) &&
                var w := maxObserved - c.grace; Scanned(c, w, old(Ledger()).(logs := Marked(old(logs), w)), Ledger())
      ensures force ==> ShippedAll(c, old(Ledger()).(logs := Marked(old(logs), MAX_INT64)), Ledger())
                        && TimelyShipped(Ledger())
      ensures force && out != [] ==> lastReported == dropped
      ensures force ==> forall k :: k in old(live) && k !in live ==>
                old(live[k]) < |store| && Evictable(c, store[old(live[k])], maxObserved)
    {
      hide Valid, Scanned, ShippedAll, TimelyShipped, Marked;
      if force {
        DrainForced();
      } else {
        DrainReady(maxObserved - c.grace);
      }
      out := HandOut();
    }

    method HandOut() returns (out: seq<Fragment>)
      requires Valid()
      modifies `queued, `given
      ensures Valid() && queued == [] && out == old(queued) && given == old(given) + out == Frags(made)
    {
      hide Indexes, AllSound, TotalLost, Reported, Covered;
      out := queued;
      given := given + queued;
      queued := [];
      assert given + [] == given;
    }

    // -------------------------------------------------------------------
    // What holds in every reachable state
    // -------------------------------------------------------------------

    /** Accepted points are pending, open, shipped or dropped, and the timestamps
        appended in one incarnation strictly increase. */
    lemma SampleConservation(i: nat)
      requires Valid() && i < |store|
      ensures |logs| == |store|
      ensures multiset(Points(logs[i].accepted)) ==
              multiset(store[i].pending) + multiset(ShippedBy(made, i)) + multiset(store[i].open) + multiset(logs[i].lost)
      ensures Increasing(Stream(i))
    {
      hide ShippedBy, Indexes;
      assert Sound(c, store[i], logs[i], ShippedBy(made, i));
    }

    /** Drops stamped on the fragments handed out or queued add up to the drops
        reported, which never exceed the drops counted. */
    lemma DropConservation()
      requires Valid()
      ensures Frags(made) == given + queued
      ensures Reported(made) == lastReported <= dropped == TotalLost(logs)
    {
    }

    /** A series is queued for eviction at most once, exactly when flagged, under a
        key no newer than its last activity. */
    lemma EvictQueueExact()
      requires Valid()
      ensures forall i :: 0 <= i < |store| ==> (store[i].inEvict <==> Queued(multiset(evictQueue), i))
      ensures forall e :: e in multiset(evictQueue) ==>
                multiset(evictQueue)[e] == 1 && e.v < |store| && e.t <= store[e.v].lastActive
      ensures forall e, f :: e in multiset(evictQueue) && f in multiset(evictQueue) && e.v == f.v ==> e == f
    {
      hide Books, Covered, Dormant, IsHeap;
    }
  }
}
