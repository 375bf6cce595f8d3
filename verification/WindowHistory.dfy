/**
 What the runtime's fields must agree on with the history of a run: which input
 went into which window, what was shipped for it, and under which config.
 */
module WindowHistory {
  import opened Common
  import opened WindowBounds
  import opened SumDelta

  type Live = map<string, Entry>
  type Cache = map<string, Amount>

  /** An entry that left the table: closed and emitted in rotation `round`, or
      evicted to make room. */
  datatype Closed = Closed(key: string, entry: Entry, bounds: Bounds, emitted: bool, round: nat, served: Config)

  datatype Admission = Admission(key: string, input: Input)

  // ---------------------------------------------------------------------
  // Every admitted input is in one window
  // ---------------------------------------------------------------------

  function LogFor(admitted: seq<Admission>, key: string): (r: seq<Input>)
  {
    if admitted == [] then []
    else
      var a := admitted[|admitted| - 1];
      LogFor(admitted[..|admitted| - 1], key) + (if a.key == key then [a.input] else [])
  }

  function ClosedLog(closed: seq<Closed>, key: string): (r: seq<Input>)
  {
    if closed == [] then []
    else
      var c := closed[|closed| - 1];
      ClosedLog(closed[..|closed| - 1], key) + (if c.key == key then c.entry.past.inputs else [])
  }

  function LiveLog(m: Live, key: string): (r: seq<Input>)
  {
    if key in m then m[key].past.inputs else []
  }

  /** Per key, the inputs admitted are those of its closed windows in order,
      followed by those of its live entry. */
  ghost predicate Logged(admitted: seq<Admission>, closed: seq<Closed>, m: Live)
  {
    forall key :: LogFor(admitted, key) == ClosedLog(closed, key) + LiveLog(m, key)
  }

  lemma LoggedClose(admitted: seq<Admission>, closed: seq<Closed>, m: Live, c: Closed)
    requires Logged(admitted, closed, m) && c.key in m && c.entry == m[c.key]
    ensures Logged(admitted, closed + [c], m - {c.key})
  {
    assert (closed + [c])[..|closed|] == closed;
    forall key
      ensures LogFor(admitted, key) == ClosedLog(closed + [c], key) + LiveLog(m - {c.key}, key)
    {
      if key == c.key {
        assert ClosedLog(closed + [c], key) + [] == ClosedLog(closed + [c], key);
      } else {
        assert ClosedLog(closed, key) + [] == ClosedLog(closed, key);
      }
    }
  }

  lemma LoggedFeed(admitted: seq<Admission>, closed: seq<Closed>, m: Live, key: string, e: Entry, i: Input)
    requires Logged(admitted, closed, m) && e.past.inputs == LiveLog(m, key) + [i]
    ensures Logged(admitted + [Admission(key, i)], closed, m[key := e])
  {
    var all := admitted + [Admission(key, i)];
    assert all[..|admitted|] == admitted;
    forall k
      ensures LogFor(all, k) == ClosedLog(closed, k) + LiveLog(m[key := e], k)
    {
      if k == key {
        assert (ClosedLog(closed, k) + LiveLog(m, k)) + [i] == ClosedLog(closed, k) + (LiveLog(m, k) + [i]);
      } else {
        assert LogFor(admitted, k) + [] == LogFor(admitted, k);
      }
    }
  }

  // ---------------------------------------------------------------------
  // Live entries
  // ---------------------------------------------------------------------

  /** Every sample was before the window's end, and no more than the lateness before its
      start. */
  predicate InTimeAll(inputs: seq<Input>, b: Bounds, lateness: nat)
  {
    forall k :: 0 <= k < |inputs| && inputs[k].Scalar? ==> inputs[k].ts < b.end && b.start <= inputs[k].ts + lateness
  }

  /** The entry holds what its inputs make it, and was admitted under the active
      config into the active window. */
  predicate EntryOk(e: Entry, cfg: Option<Config>, b: Bounds, nextId: nat)
  {
    && Faithful(e) && cfg == Some(e.past.cfg) && e.past.id < nextId
    && InTimeAll(e.past.inputs, b, e.past.cfg.lateness)
  }

  ghost predicate EntriesOk(m: Live, cfg: Option<Config>, b: Bounds, nextId: nat)
  {
    && (forall k :: k in m ==> EntryOk(m[k], cfg, b, nextId))
    && (forall j, k :: j in m && k in m && j != k ==> m[j].past.id != m[k].past.id)
  }

  lemma IdsDiffer(m: Live, cfg: Option<Config>, b: Bounds, nextId: nat, key: string)
    requires EntriesOk(m, cfg, b, nextId) && key in m
    ensures forall k :: k in m && k != key ==> m[k].past.id != m[key].past.id
  {
    hide EntryOk;
  }

  lemma EntriesFeed(m: Live, cfg: Option<Config>, b: Bounds, nextId: nat, key: string, i: Input)
    requires EntriesOk(m, cfg, b, nextId) && key in m
    requires i.Scalar? ==> Validate(b, i.ts, m[key].past.cfg.lateness) == InTime
    ensures EntriesOk(m[key := Fed(m[key], i)], cfg, b, nextId)
  {
    hide Faithful;
    FedFaithful(m[key], i);
    assert EntryOk(m[key], cfg, b, nextId);
  }

  lemma EntriesNew(m: Live, c: Config, b: Bounds, nextId: nat, key: string, i: Input)
    requires EntriesOk(m, Some(c), b, nextId) && key !in m
    requires i.Scalar? ==> Validate(b, i.ts, c.lateness) == InTime
    ensures EntriesOk(m[key := Fed(Blank(nextId, c, i.ts), i)], Some(c), b, nextId + 1)
  {
    hide Faithful;
    FirstFaithful(nextId, c, i);
    var m' := m[key := Fed(Blank(nextId, c, i.ts), i)];
    forall k | k in m'
      ensures EntryOk(m'[k], Some(c), b, nextId + 1)
    {
      assert k != key ==> EntryOk(m[k], Some(c), b, nextId);
    }
    assert forall k :: k in m ==> m[k].past.id < nextId by {
      assert forall k :: k in m ==> EntryOk(m[k], Some(c), b, nextId);
    }
  }

  lemma EntriesRemove(m: Live, cfg: Option<Config>, b: Bounds, nextId: nat, key: string)
    requires EntriesOk(m, cfg, b, nextId)
    ensures EntriesOk(m - {key}, cfg, b, nextId)
  {
    hide EntryOk;
  }

  // ---------------------------------------------------------------------
  // Telescoping
  // ---------------------------------------------------------------------

  type Offsets = map<nat, Amount>

  /** What an incarnation's base stood at before it shipped anything: the base
      cached for its key when it was admitted, less any base discarded since. */
  function OffsetOf(o: Offsets, id: nat): (a: Amount)
  {
    if id in o then o[id] else ZERO
  }

  ghost predicate TelescopedAt(e: Entry, base: Amount, made: seq<Made>, o: Offsets)
  {
    AllWellFormed(e.past.inputs) ==> Folded(made, e.past.id).Plus(OffsetOf(o, e.past.id)) == base
  }

  /** The payloads shipped so far bring each series from its offset to its cached
      base. */
  ghost predicate Telescoped(m: Live, cache: Cache, made: seq<Made>, o: Offsets)
  {
    forall k :: k in m ==> TelescopedAt(m[k], BaseAt(cache, k), made, o)
  }

  ghost predicate MadeBelow(made: seq<Made>, nextId: nat)
  {
    forall k :: 0 <= k < |made| ==> made[k].id < nextId
  }

  lemma TelescopedFeed(m: Live, cache: Cache, made: seq<Made>, o: Offsets, key: string, i: Input)
    requires Telescoped(m, cache, made, o) && key in m
    ensures Telescoped(m[key := Fed(m[key], i)], cache, made, o)
  {
    hide Folded;
    var e, m' := m[key], m[key := Fed(m[key], i)];
    forall k | k in m'
      ensures TelescopedAt(m'[k], BaseAt(cache, k), made, o)
    {
      assert TelescopedAt(m[k], BaseAt(cache, k), made, o);
      if k == key && AllWellFormed(m'[k].past.inputs) {
        assert forall j :: 0 <= j < |e.past.inputs| ==> m'[k].past.inputs[j] == e.past.inputs[j];
      }
    }
  }

  /** A new incarnation starts from whatever base is cached for its key. */
  lemma TelescopedNew(m: Live, cache: Cache, made: seq<Made>, o: Offsets, key: string, e: Entry, nextId: nat)
    requires Telescoped(m, cache, made, o) && MadeBelow(made, nextId) && e.past.id == nextId
    requires forall k :: k in m ==> m[k].past.id < nextId
    ensures Telescoped(m[key := e], cache, made, o[nextId := BaseAt(cache, key)])
  {
    hide Folded;
    FoldedUnknown(made, nextId);
    var m', o' := m[key := e], o[nextId := BaseAt(cache, key)];
    forall k | k in m'
      ensures TelescopedAt(m'[k], BaseAt(cache, k), made, o')
    {
      assert k != key ==> TelescopedAt(m[k], BaseAt(cache, k), made, o);
    }
  }

  lemma TelescopedEvict(m: Live, cache: Cache, made: seq<Made>, o: Offsets, key: string)
    requires Telescoped(m, cache, made, o)
    ensures Telescoped(m - {key}, cache - {key}, made, o)
  {
    hide TelescopedAt;
    forall k | k in m - {key}
      ensures TelescopedAt(m[k], BaseAt(cache - {key}, k), made, o)
    {
      assert TelescopedAt(m[k], BaseAt(cache, k), made, o);
    }
  }

  /** The envelopes after shipping `p`, if anything, for incarnation `id`. */
  function After(made: seq<Made>, id: nat, p: Option<Amount>, env: Envelope): (r: seq<Made>)
  {
    if p.None? then made else made + [Made(id, env.(payload := p.value))]
  }

  lemma AfterFolds(made: seq<Made>, id: nat, p: Option<Amount>, env: Envelope)
    ensures forall j :: Folded(After(made, id, p, env), j) ==
                        Folded(made, j).Plus(if j == id then Shipped(p) else ZERO)
  {
    hide Folded;
    if p.Some? {
      FoldedSnoc(made, Made(id, env.(payload := p.value)));
    }
  }

  lemma EmptyWhenNoSamples(e: Entry)
    requires Faithful(e) && AllWellFormed(e.past.inputs)
    ensures e.total.count == 0 ==> e.total == ZERO
  {
    EmptyTotal(e.past, FirstSeen(e.past));
  }

  /** A sub-window emit keeps every series telescoped. */
  lemma TelescopedShip(m: Live, cache: Cache, made: seq<Made>, o: Offsets, cfg: Option<Config>, b: Bounds, nextId: nat,
                       key: string, env: Envelope)
    requires Telescoped(m, cache, made, o) && EntriesOk(m, cfg, b, nextId) && key in m
    ensures var e := m[key];
            Telescoped(m, cache[key := CachedSnapshot(e.total)],
                       After(made, e.past.id, Delta(Cached(cache, key), e.total), env), o)
  {
    hide Folded, After, Faithful, Rebuilt, Delta, CachedSnapshot;
    var e := m[key];
    var p := Delta(Cached(cache, key), e.total);
    var cache', made' := cache[key := CachedSnapshot(e.total)], After(made, e.past.id, p, env);
    AfterFolds(made, e.past.id, p, env);
    assert EntryOk(e, cfg, b, nextId);
    forall k | k in m
      ensures TelescopedAt(m[k], BaseAt(cache', k), made', o)
    {
      assert TelescopedAt(m[k], BaseAt(cache, k), made, o);
      if k == key && AllWellFormed(e.past.inputs) {
        EmptyWhenNoSamples(e);
        DeltaReaches(cache, key, e.total);
      }
    }
  }

  // ---------------------------------------------------------------------
  // Entries that left
  // ---------------------------------------------------------------------

  /** A closed entry was serialized under the config that admitted it, and its
      payloads add up to its total, counted from its offset if deltas are on. */
  ghost predicate RetiredAt(c: Closed, made: seq<Made>, o: Offsets)
  {
    var id, past := c.entry.past.id, c.entry.past;
    && Faithful(c.entry) && InTimeAll(past.inputs, c.bounds, past.cfg.lateness)
    && (c.emitted ==> c.served == past.cfg)
    && (c.emitted && AllWellFormed(past.inputs) ==>
          Folded(made, id).Plus(if c.served.delta then OffsetOf(o, id) else ZERO) == c.entry.total)
  }

  ghost predicate Retired(closed: seq<Closed>, m: Live, made: seq<Made>, o: Offsets, nextId: nat)
  {
    && (forall i :: 0 <= i < |closed| ==> RetiredAt(closed[i], made, o) && closed[i].entry.past.id < nextId)
    && (forall i, k :: 0 <= i < |closed| && k in m ==> closed[i].entry.past.id != m[k].past.id)
  }

  lemma RetiredFeed(closed: seq<Closed>, m: Live, made: seq<Made>, o: Offsets, nextId: nat, key: string, e: Entry)
    requires Retired(closed, m, made, o, nextId) && key in m && e.past.id == m[key].past.id
    ensures Retired(closed, m[key := e], made, o, nextId)
  {
    hide RetiredAt;
  }

  lemma RetiredNew(closed: seq<Closed>, m: Live, made: seq<Made>, o: Offsets, nextId: nat, key: string, e: Entry, base: Amount)
    requires Retired(closed, m, made, o, nextId) && e.past.id == nextId
    ensures Retired(closed, m[key := e], made, o[nextId := base], nextId + 1)
  {
    hide Folded, Faithful, InTimeAll, AllWellFormed;
    forall i | 0 <= i < |closed|
      ensures RetiredAt(closed[i], made, o[nextId := base])
    {
      assert RetiredAt(closed[i], made, o);
    }
  }

  /** Shipping for a live series leaves closed ones alone. */
  lemma RetiredShip(closed: seq<Closed>, m: Live, made: seq<Made>, o: Offsets, nextId: nat, key: string,
                    p: Option<Amount>, env: Envelope)
    requires Retired(closed, m, made, o, nextId) && key in m
    ensures Retired(closed, m, After(made, m[key].past.id, p, env), o, nextId)
  {
    hide Folded, Faithful, InTimeAll, AllWellFormed, After;
    AfterFolds(made, m[key].past.id, p, env);
    forall i | 0 <= i < |closed|
      ensures RetiredAt(closed[i], After(made, m[key].past.id, p, env), o)
    {
      assert RetiredAt(closed[i], made, o) && closed[i].entry.past.id != m[key].past.id;
    }
  }

  lemma RetiredClose(closed: seq<Closed>, m: Live, made: seq<Made>, o: Offsets, nextId: nat, c: Closed,
                     cfg: Option<Config>, b: Bounds)
    requires Retired(closed, m, made, o, nextId) && EntriesOk(m, cfg, b, nextId)
    requires c.key in m && c.entry == m[c.key] && RetiredAt(c, made, o)
    ensures Retired(closed + [c], m - {c.key}, made, o, nextId)
  {
    hide RetiredAt;
    var all := closed + [c];
    assert EntryOk(m[c.key], cfg, b, nextId);
    forall i | 0 <= i < |all|
      ensures RetiredAt(all[i], made, o) && all[i].entry.past.id < nextId
    {
      assert i < |closed| ==> all[i] == closed[i];
    }
  }

  /** An evicted entry has nothing to account for but its inputs. */
  lemma EvictedRetires(m: Live, made: seq<Made>, o: Offsets, nextId: nat, cfg: Option<Config>, b: Bounds, c: Closed)
    requires EntriesOk(m, cfg, b, nextId) && c.key in m && c.entry == m[c.key] && c.bounds == b && !c.emitted
    ensures RetiredAt(c, made, o)
  {
    assert EntryOk(m[c.key], cfg, b, nextId);
  }

  /** The payload a boundary emit ships. */
  function BoundaryPayload(cfg: Config, cache: Cache, key: string, e: Entry): (p: Option<Amount>)
  {
    if cfg.delta then Delta(Cached(cache, key), e.total) else Snapshot(e.total)
  }

  function BoundaryBase(cfg: Config, e: Entry): (b: Amount)
  {
    if cfg.delta then ZERO else CachedSnapshot(e.total)
  }

  /** Nothing has been shipped for a series yet. */
  ghost predicate Unshipped(m: Live, made: seq<Made>)
  {
    forall k :: k in m ==> Folded(made, m[k].past.id) == ZERO
  }

  /** A boundary emit completes the series. */
  lemma BoundaryRetires(m: Live, cache: Cache, made: seq<Made>, o: Offsets, cfg: Config, b: Bounds, nextId: nat,
                        c: Closed, env: Envelope)
    requires Telescoped(m, cache, made, o) && EntriesOk(m, Some(cfg), b, nextId) && (cfg.delta || Unshipped(m, made))
    requires c.key in m && c.entry == m[c.key] && c.bounds == b && c.emitted && c.served == cfg
    ensures RetiredAt(c, After(made, c.entry.past.id, BoundaryPayload(cfg, cache, c.key, c.entry), env), o)
  {
    hide Folded, After, Faithful, EntriesOk, Telescoped, BoundaryPayload, InTimeAll, AllWellFormed;
    var e := c.entry;
    var p := BoundaryPayload(cfg, cache, c.key, e);
    AfterFolds(made, e.past.id, p, env);
    LiveFacts(m, cache, made, o, cfg, b, nextId, c.key);
    if AllWellFormed(e.past.inputs) {
      EmptyWhenNoSamples(e);
      BoundarySum(Folded(made, e.past.id), OffsetOf(o, e.past.id), cfg, cache, c.key, e);
    }
  }

  lemma BoundarySum(x: Amount, off: Amount, cfg: Config, cache: Cache, key: string, e: Entry)
    requires e.total.count == 0 ==> e.total == ZERO
    requires x.Plus(off) == BaseAt(cache, key) && (cfg.delta || x == ZERO)
    ensures x.Plus(Shipped(BoundaryPayload(cfg, cache, key, e))).Plus(if cfg.delta then off else ZERO) == e.total
  {
    hide Delta, Shipped, BaseAt, Snapshot;
    if cfg.delta {
      DeltaReaches(cache, key, e.total);
      PlusSwaps(x, Shipped(Delta(Cached(cache, key), e.total)), off);
    } else {
      FullShips(e.total);
    }
  }

  lemma PlusSwaps(a: Amount, b: Amount, c: Amount)
    ensures a.Plus(b).Plus(c) == a.Plus(c).Plus(b)
  {
  }

  lemma FullShips(a: Amount)
    requires a.count == 0 ==> a == ZERO
    ensures ZERO.Plus(Shipped(Snapshot(a))).Plus(ZERO) == a
  {
  }

  lemma LiveFacts(m: Live, cache: Cache, made: seq<Made>, o: Offsets, cfg: Config, b: Bounds, nextId: nat, key: string)
    requires Telescoped(m, cache, made, o) && EntriesOk(m, Some(cfg), b, nextId) && key in m
    ensures EntryOk(m[key], Some(cfg), b, nextId) && TelescopedAt(m[key], BaseAt(cache, key), made, o)
  {
    hide EntryOk, TelescopedAt;
  }

  /** Closing one series leaves the others telescoped. */
  lemma TelescopedClose(m: Live, cache: Cache, made: seq<Made>, o: Offsets, cfg: Option<Config>, b: Bounds, nextId: nat,
                        key: string, base: Amount, p: Option<Amount>, env: Envelope)
    requires Telescoped(m, cache, made, o) && EntriesOk(m, cfg, b, nextId) && key in m
    ensures Telescoped(m - {key}, cache[key := base], After(made, m[key].past.id, p, env), o)
  {
    hide Folded, After, AllWellFormed, EntriesOk;
    IdsDiffer(m, cfg, b, nextId, key);
    AfterFolds(made, m[key].past.id, p, env);
    forall k | k in m - {key}
      ensures TelescopedAt(m[k], BaseAt(cache[key := base], k), After(made, m[key].past.id, p, env), o)
    {
      assert TelescopedAt(m[k], BaseAt(cache, k), made, o);
    }
  }

  // ---------------------------------------------------------------------
  // Discarding the cached bases
  // ---------------------------------------------------------------------

  ghost function Rebased(m: Live, cache: Cache, o: Offsets): (r: Offsets)
  {
    map id | id in o.Keys + (set k | k in m :: m[k].past.id) ::
      if exists k :: k in m && m[k].past.id == id
      then (var k :| k in m && m[k].past.id == id; OffsetOf(o, id).Minus(BaseAt(cache, k)))
      else OffsetOf(o, id)
  }

  lemma TelescopedRebase(m: Live, cache: Cache, made: seq<Made>, o: Offsets, cfg: Option<Config>, b: Bounds, nextId: nat)
    requires Telescoped(m, cache, made, o) && EntriesOk(m, cfg, b, nextId)
    ensures Telescoped(m, map[], made, Rebased(m, cache, o))
    ensures forall k :: k in m ==> OffsetOf(Rebased(m, cache, o), m[k].past.id) ==
                                   OffsetOf(o, m[k].past.id).Minus(BaseAt(cache, k))
  {
    hide Folded, AllWellFormed, EntriesOk, Rebased;
    var o' := Rebased(m, cache, o);
    forall k | k in m
      ensures TelescopedAt(m[k], ZERO, made, o')
      ensures OffsetOf(o', m[k].past.id) == OffsetOf(o, m[k].past.id).Minus(BaseAt(cache, k))
    {
      assert TelescopedAt(m[k], BaseAt(cache, k), made, o);
      IdsDiffer(m, cfg, b, nextId, k);
      RebasedAt(m, cache, o, k);
    }
  }

  lemma RebasedAt(m: Live, cache: Cache, o: Offsets, key: string)
    requires key in m && forall k :: k in m && k != key ==> m[k].past.id != m[key].past.id
    ensures OffsetOf(Rebased(m, cache, o), m[key].past.id) == OffsetOf(o, m[key].past.id).Minus(BaseAt(cache, key))
  {
    hide BaseAt;
    assert m[key].past.id in Rebased(m, cache, o);
  }

  lemma RetiredRebase(closed: seq<Closed>, m: Live, made: seq<Made>, o: Offsets, nextId: nat, cache: Cache)
    requires Retired(closed, m, made, o, nextId)
    ensures Retired(closed, m, made, Rebased(m, cache, o), nextId)
  {
    hide Folded, AllWellFormed, Faithful, InTimeAll;
    var o' := Rebased(m, cache, o);
    forall i | 0 <= i < |closed|
      ensures RetiredAt(closed[i], made, o')
    {
      var id := closed[i].entry.past.id;
      assert RetiredAt(closed[i], made, o);
      assert forall k :: k in m ==> m[k].past.id != id;
      assert OffsetOf(o', id) == OffsetOf(o, id);
    }
  }

  // ---------------------------------------------------------------------
  // Ranges with one fixed step
  // ---------------------------------------------------------------------

  /** Rotations so far have disjoint, increasing ranges, all before the window. */
  ghost predicate Advancing(rounds: seq<Bounds>, initialized: bool, b: Bounds, step: Millis)
    requires step > 0
  {
    && (initialized ==> Aligned(b, step)) && (rounds != [] ==> initialized)
    && (forall i :: 0 <= i < |rounds| ==> Aligned(rounds[i], step) && rounds[i].end <= b.start)
    && (forall i, j :: 0 <= i < j < |rounds| ==> rounds[i].end <= rounds[j].start)
  }

  lemma AdvancingRotate(rounds: seq<Bounds>, b: Bounds, step: Millis, nowMs: Millis, emits: bool)
    requires step > 0 && Advancing(rounds, true, b, step) && !AdvanceWraps(b, nowMs, step)
    ensures Advancing(if emits then rounds + [b] else rounds, true, Advance(b, nowMs, step), step)
  {
    hide Advance, Aligned, AdvanceWraps;
    AdvanceAligned(b, nowMs, step);
    AlignedIs(b, step);
  }

  lemma AlignedIs(b: Bounds, step: Millis)
    requires step > 0 && Aligned(b, step)
    ensures b.start < b.end
  {
  }

  ghost predicate InRounds(closed: seq<Closed>, rounds: seq<Bounds>)
  {
    forall i :: 0 <= i < |closed| && closed[i].emitted ==>
      closed[i].round < |rounds| && rounds[closed[i].round] == closed[i].bounds
  }
}
