/**
 The tumbling-window runtime: observation, rotation, sub-window emits and config
 generations.
 */
module WindowRuntime {
  import opened Common
  import opened WindowBounds
  import opened SumDelta
  import opened WindowHistory
  import Order
  import RankHeap

  // ---------------------------------------------------------------------
  // The state and its history as one value
  // ---------------------------------------------------------------------

  datatype Story = Story(live: Live, cfg: Option<Config>, bounds: Bounds, nextId: nat, cache: Cache,
                         made: seq<Made>, offsets: Offsets, admitted: seq<Admission>, closed: seq<Closed>)

  ghost predicate Sound(s: Story)
  {
    && EntriesOk(s.live, s.cfg, s.bounds, s.nextId)
    && Telescoped(s.live, s.cache, s.made, s.offsets)
    && MadeBelow(s.made, s.nextId)
    && Logged(s.admitted, s.closed, s.live)
    && Retired(s.closed, s.live, s.made, s.offsets, s.nextId)
    && (s.cfg.Some? && !s.cfg.value.delta ==> Unshipped(s.live, s.made))
  }

  lemma SoundInit()
    ensures Sound(Story(map[], None, Bounds(0, 0), 0, map[], [], map[], [], []))
  {
  }

  lemma SoundFeed(s: Story, key: string, i: Input)
    requires Sound(s) && key in s.live && s.cfg.Some?
    requires i.Scalar? ==> Validate(s.bounds, i.ts, s.cfg.value.lateness) == InTime
    ensures Sound(Story(s.live[key := Fed(s.live[key], i)], s.cfg, s.bounds, s.nextId, s.cache, s.made, s.offsets,
                        s.admitted + [Admission(key, i)], s.closed))
  {
    hide Telescoped, Logged, Retired, MadeBelow, Validate, Faithful, InTimeAll, Folded;
    var e := Fed(s.live[key], i);
    assert EntryOk(s.live[key], s.cfg, s.bounds, s.nextId);
    EntriesFeed(s.live, s.cfg, s.bounds, s.nextId, key, i);
    TelescopedFeed(s.live, s.cache, s.made, s.offsets, key, i);
    LoggedFeed(s.admitted, s.closed, s.live, key, e, i);
    RetiredFeed(s.closed, s.live, s.made, s.offsets, s.nextId, key, e);
  }

  lemma SoundNew(s: Story, key: string, c: Config, i: Input)
    requires Sound(s) && key !in s.live && s.cfg == Some(c)
    requires i.Scalar? ==> Validate(s.bounds, i.ts, c.lateness) == InTime
    ensures Sound(Story(s.live[key := Fed(Blank(s.nextId, c, i.ts), i)], s.cfg, s.bounds, s.nextId + 1, s.cache, s.made,
                        s.offsets[s.nextId := BaseAt(s.cache, key)], s.admitted + [Admission(key, i)], s.closed))
  {
    hide Telescoped, Logged, Retired, Validate, Faithful, InTimeAll, Folded, BaseAt;
    var e := Fed(Blank(s.nextId, c, i.ts), i);
    assert forall k :: k in s.live ==> s.live[k].past.id < s.nextId by {
      assert forall k :: k in s.live ==> EntryOk(s.live[k], s.cfg, s.bounds, s.nextId);
    }
    assert e.past.inputs == LiveLog(s.live, key) + [i];
    EntriesNew(s.live, c, s.bounds, s.nextId, key, i);
    TelescopedNew(s.live, s.cache, s.made, s.offsets, key, e, s.nextId);
    LoggedFeed(s.admitted, s.closed, s.live, key, e, i);
    RetiredNew(s.closed, s.live, s.made, s.offsets, s.nextId, key, e, BaseAt(s.cache, key));
    FoldedUnknown(s.made, s.nextId);
  }

  lemma SoundEvict(s: Story, key: string, x: Closed)
    requires Sound(s) && key in s.live && x.key == key && x.entry == s.live[key] && x.bounds == s.bounds && !x.emitted
    ensures Sound(Story(s.live - {key}, s.cfg, s.bounds, s.nextId, s.cache - {key}, s.made, s.offsets, s.admitted,
                        s.closed + [x]))
  {
    hide EntriesOk, Telescoped, Logged, Retired, MadeBelow, Folded, RetiredAt;
    EvictedRetires(s.live, s.made, s.offsets, s.nextId, s.cfg, s.bounds, x);
    EntriesRemove(s.live, s.cfg, s.bounds, s.nextId, key);
    TelescopedEvict(s.live, s.cache, s.made, s.offsets, key);
    LoggedClose(s.admitted, s.closed, s.live, x);
    RetiredClose(s.closed, s.live, s.made, s.offsets, s.nextId, x, s.cfg, s.bounds);
  }

  lemma MadeBelowAfter(made: seq<Made>, nextId: nat, id: nat, p: Option<Amount>, env: Envelope)
    requires MadeBelow(made, nextId) && id < nextId
    ensures MadeBelow(After(made, id, p, env), nextId)
  {
  }

  lemma SoundShip(s: Story, key: string, env: Envelope)
    requires Sound(s) && key in s.live && s.cfg.Some? && s.cfg.value.delta
    ensures var e := s.live[key];
            Sound(Story(s.live, s.cfg, s.bounds, s.nextId, s.cache[key := CachedSnapshot(e.total)],
                        After(s.made, e.past.id, Delta(Cached(s.cache, key), e.total), env), s.offsets, s.admitted, s.closed))
  {
    hide Telescoped, Logged, Retired, MadeBelow, Folded, After, Delta, CachedSnapshot, Faithful, InTimeAll;
    var e := s.live[key];
    assert EntryOk(e, s.cfg, s.bounds, s.nextId);
    var p := Delta(Cached(s.cache, key), e.total);
    TelescopedShip(s.live, s.cache, s.made, s.offsets, s.cfg, s.bounds, s.nextId, key, env);
    RetiredShip(s.closed, s.live, s.made, s.offsets, s.nextId, key, p, env);
    MadeBelowAfter(s.made, s.nextId, e.past.id, p, env);
  }

  lemma UnshippedClose(m: Live, cfg: Option<Config>, b: Bounds, nextId: nat, made: seq<Made>, key: string,
                       p: Option<Amount>, env: Envelope)
    requires Unshipped(m, made) && EntriesOk(m, cfg, b, nextId) && key in m
    ensures Unshipped(m - {key}, After(made, m[key].past.id, p, env))
  {
    hide Folded, After, EntriesOk;
    IdsDiffer(m, cfg, b, nextId, key);
    AfterFolds(made, m[key].past.id, p, env);
  }

  lemma SoundClose(s: Story, key: string, c: Config, round: nat, env: Envelope)
    requires Sound(s) && key in s.live && s.cfg == Some(c)
    ensures var e := s.live[key];
            Sound(Story(s.live - {key}, s.cfg, s.bounds, s.nextId, s.cache[key := BoundaryBase(c, e)],
                        After(s.made, e.past.id, BoundaryPayload(c, s.cache, key, e), env), s.offsets, s.admitted,
                        s.closed + [Closed(key, e, s.bounds, true, round, c)]))
  {
    hide EntryOk, Telescoped, Logged, Retired, MadeBelow, Unshipped, After, BoundaryPayload, BoundaryBase, RetiredAt;
    var e := s.live[key];
    var x := Closed(key, e, s.bounds, true, round, c);
    var p := BoundaryPayload(c, s.cache, key, e);
    BoundaryRetires(s.live, s.cache, s.made, s.offsets, c, s.bounds, s.nextId, x, env);
    RetiredShip(s.closed, s.live, s.made, s.offsets, s.nextId, key, p, env);
    TelescopedClose(s.live, s.cache, s.made, s.offsets, s.cfg, s.bounds, s.nextId, key, BoundaryBase(c, e), p, env);
    EntriesRemove(s.live, s.cfg, s.bounds, s.nextId, key);
    LoggedClose(s.admitted, s.closed, s.live, x);
    RetiredClose(s.closed, s.live, After(s.made, e.past.id, p, env), s.offsets, s.nextId, x, s.cfg, s.bounds);
    EntryId(s.live, s.cfg, s.bounds, s.nextId, key);
    MadeBelowAfter(s.made, s.nextId, e.past.id, p, env);
    if !c.delta {
      UnshippedClose(s.live, s.cfg, s.bounds, s.nextId, s.made, key, p, env);
    }
  }

  lemma EntryId(m: Live, cfg: Option<Config>, b: Bounds, nextId: nat, key: string)
    requires EntriesOk(m, cfg, b, nextId) && key in m
    ensures m[key].past.id < nextId
  {
    assert EntryOk(m[key], cfg, b, nextId);
  }

  /** With no live entries the bounds, the config and the cache may change freely. */
  lemma SoundIdle(s: Story, cfg: Option<Config>, b: Bounds, cache: Cache)
    requires Sound(s) && s.live == map[]
    ensures Sound(Story(map[], cfg, b, s.nextId, cache, s.made, s.offsets, s.admitted, s.closed))
  {
    hide Logged, Retired, MadeBelow;
  }

  lemma SoundReset(s: Story)
    requires Sound(s)
    ensures Sound(Story(s.live, s.cfg, s.bounds, s.nextId, map[], s.made, Rebased(s.live, s.cache, s.offsets), s.admitted,
                        s.closed))
  {
    hide EntriesOk, Telescoped, Logged, Retired, MadeBelow, Rebased, Unshipped;
    TelescopedRebase(s.live, s.cache, s.made, s.offsets, s.cfg, s.bounds, s.nextId);
    RetiredRebase(s.closed, s.live, s.made, s.offsets, s.nextId, s.cache);
  }

  // ---------------------------------------------------------------------
  // The runtime
  // ---------------------------------------------------------------------

  datatype Outcome = Recorded | Ignored | NoConfig | Mismatched | Malformed | LateData | FutureData | CapExceeded

  function Envs(made: seq<Made>): (r: seq<Envelope>)
    ensures |r| == |made|
  {
    seq(|made|, i requires 0 <= i < |made| => made[i].env)
  }

  lemma EnvsSnoc(made: seq<Made>, m: Made)
    ensures Envs(made + [m]) == Envs(made) + [m.env]
  {
  }

  ghost predicate ZeroElsewhere(cache: Cache, live: Live)
  {
    forall k :: k in cache && k !in live ==> cache[k] == ZERO
  }

  /** The table is within the cap, and with a clean cache only live series have a
      base that is not empty. */
  ghost predicate TableOk(cfg: Option<Config>, initialized: bool, live: Live, cache: Cache, clean: bool,
                          closed: seq<Closed>, rounds: seq<Bounds>)
  {
    && (live != map[] ==> initialized && cfg.Some?)
    && (cfg.Some? && cfg.value.maxSeries > 0 ==> |live| <= cfg.value.maxSeries)
    && (clean ==> ZeroElsewhere(cache, live))
    && InRounds(closed, rounds)
  }

  lemma TableEvict(cfg: Option<Config>, initialized: bool, live: Live, cache: Cache, clean: bool,
                   closed: seq<Closed>, rounds: seq<Bounds>, x: Closed)
    requires TableOk(cfg, initialized, live, cache, clean, closed, rounds) && x.key in live && !x.emitted
    ensures TableOk(cfg, initialized, live - {x.key}, cache - {x.key}, clean, closed + [x], rounds)
    ensures |live - {x.key}| == |live| - 1
  {
    hide ZeroElsewhere, InRounds;
    ZeroEvict(cache, live, x.key);
    RoundsSame(closed, x, rounds);
  }

  lemma TableFeed(cfg: Option<Config>, initialized: bool, live: Live, cache: Cache, clean: bool,
                  closed: seq<Closed>, rounds: seq<Bounds>, key: string, e: Entry)
    requires TableOk(cfg, initialized, live, cache, clean, closed, rounds) && key in live
    ensures TableOk(cfg, initialized, live[key := e], cache, clean, closed, rounds)
  {
    hide InRounds;
    assert live[key := e].Keys == live.Keys;
  }

  lemma TableShip(cfg: Option<Config>, initialized: bool, live: Live, cache: Cache, clean: bool,
                  closed: seq<Closed>, rounds: seq<Bounds>, key: string, b: Amount)
    requires TableOk(cfg, initialized, live, cache, clean, closed, rounds) && key in live
    ensures TableOk(cfg, initialized, live, cache[key := b], clean, closed, rounds)
  {
    hide InRounds;
  }

  lemma TableNew(cfg: Option<Config>, initialized: bool, live: Live, cache: Cache, clean: bool,
                 closed: seq<Closed>, rounds: seq<Bounds>, key: string, e: Entry)
    requires TableOk(cfg, initialized, live, cache, clean, closed, rounds) && initialized && cfg.Some?
    requires key !in live && (cfg.value.maxSeries > 0 ==> |live| < cfg.value.maxSeries)
    ensures TableOk(cfg, initialized, live[key := e], cache, clean, closed, rounds)
    ensures clean ==> BaseAt(cache, key) == ZERO
  {
    hide ZeroElsewhere, InRounds, BaseAt;
    ZeroNew(cache, live, key, e);
  }

  /** With no live entries the config may change, the cache may be emptied or, after
      a close, hold what the closed entries left. */
  lemma TableIdle(cfg: Option<Config>, initialized: bool, cache: Cache, clean: bool, closed: seq<Closed>,
                  rounds: seq<Bounds>)
    requires InRounds(closed, rounds) && (clean ==> ZeroElsewhere(cache, map[]))
    ensures TableOk(cfg, initialized, map[], cache, clean, closed, rounds)
  {
    hide InRounds, ZeroElsewhere;
  }

  lemma TableReset(cfg: Option<Config>, initialized: bool, live: Live, cache: Cache, clean: bool,
                   closed: seq<Closed>, rounds: seq<Bounds>)
    requires TableOk(cfg, initialized, live, cache, clean, closed, rounds)
    ensures TableOk(cfg, initialized, live, map[], true, closed, rounds)
  {
    hide InRounds;
  }

  lemma TableParts(cfg: Option<Config>, initialized: bool, live: Live, cache: Cache, clean: bool,
                   closed: seq<Closed>, rounds: seq<Bounds>)
    requires TableOk(cfg, initialized, live, cache, clean, closed, rounds)
    ensures InRounds(closed, rounds) && (clean ==> ZeroElsewhere(cache, live))
    ensures live != map[] ==> initialized && cfg.Some?
  {
    hide InRounds, ZeroElsewhere;
  }

  lemma LeftZero(cache: Cache, closing: Live, delta: bool)
    requires delta ==> forall k :: k in cache ==> k in closing && cache[k] == ZERO
    ensures delta ==> ZeroElsewhere(cache, map[])
  {
  }

  lemma NothingElsewhere()
    ensures ZeroElsewhere(map[], map[])
  {
  }

  ghost predicate DeltaOnly(cfg: Option<Config>)
  {
    cfg.Some? ==> cfg.value.delta
  }

  /** A steady runtime has deltas on, a clean cache and nothing but empty offsets. */
  ghost predicate SteadyOk(steady: bool, clean: bool, cfg: Option<Config>, staged: Option<Config>, offsets: Offsets)
  {
    steady ==> clean && DeltaOnly(cfg) && DeltaOnly(staged) && AllZero(offsets)
  }

  lemma SteadyConfig(steady: bool, clean: bool, cfg: Option<Config>, staged: Option<Config>, offsets: Offsets, c: Config)
    requires SteadyOk(steady, clean, cfg, staged, offsets)
    ensures SteadyOk(steady && c.delta, clean, cfg, Some(c), offsets)
    ensures SteadyOk(steady && c.delta, clean, Some(c), None, offsets)
  {
    hide AllZero;
  }

  lemma SteadyNew(steady: bool, clean: bool, cfg: Option<Config>, staged: Option<Config>, offsets: Offsets,
                  id: nat, base: Amount)
    requires SteadyOk(steady, clean, cfg, staged, offsets) && (clean ==> base == ZERO)
    ensures SteadyOk(steady, clean, cfg, staged, offsets[id := base])
  {
  }

  /** Bounds are empty only under an unsized config; and as long as no window's end
      wrapped they are ordered and, if all configs share one step, ranges advance
      without overlap. */
  ghost predicate RangesOk(cfg: Option<Config>, staged: Option<Config>, initialized: bool, b: Bounds,
                           rounds: seq<Bounds>, steps: set<Millis>, wrapped: bool)
  {
    && (initialized && b.start == b.end ==> 0 in steps)
    && (cfg.Some? ==> cfg.value.step in steps) && (staged.Some? ==> staged.value.step in steps)
    && (!wrapped ==> b.start <= b.end)
    && (!wrapped ==> forall step: Millis :: step > 0 && steps <= {step} ==> Advancing(rounds, initialized, b, step))
  }

  lemma RangesConfig(cfg: Option<Config>, staged: Option<Config>, initialized: bool, b: Bounds, rounds: seq<Bounds>,
                     steps: set<Millis>, wrapped: bool, c: Config)
    requires RangesOk(cfg, staged, initialized, b, rounds, steps, wrapped)
    ensures RangesOk(cfg, Some(c), initialized, b, rounds, steps + {c.step}, wrapped)
    ensures RangesOk(Some(c), None, initialized, b, rounds, steps + {c.step}, wrapped)
    ensures staged.Some? ==> RangesOk(staged, None, initialized, b, rounds, steps, wrapped)
  {
    hide Advancing;
  }

  lemma RangesRotate(cfg: Option<Config>, staged: Option<Config>, b: Bounds, rounds: seq<Bounds>, steps: set<Millis>,
                     wrapped: bool, nowMs: Millis, emits: bool)
    requires RangesOk(cfg, staged, true, b, rounds, steps, wrapped) && cfg.Some?
    ensures var step := cfg.value.step;
            RangesOk(cfg, staged, true, Advance(b, nowMs, step), if emits then rounds + [b] else rounds, steps,
                     wrapped || AdvanceWraps(b, nowMs, step))
  {
    hide Advancing, Advance, AdvanceWraps;
    AdvanceOrdered(b, nowMs, cfg.value.step);
    if !wrapped && !AdvanceWraps(b, nowMs, cfg.value.step) {
      forall step: Millis | step > 0 && steps <= {step}
        ensures Advancing(if emits then rounds + [b] else rounds, true, Advance(b, nowMs, cfg.value.step), step)
      {
        assert cfg.value.step == step;
        AdvancingRotate(rounds, b, step, nowMs, emits);
      }
    }
  }

  lemma RangesInit(cfg: Option<Config>, staged: Option<Config>, b: Bounds, rounds: seq<Bounds>, steps: set<Millis>,
                   wrapped: bool, refMs: Millis)
    requires RangesOk(cfg, staged, false, b, rounds, steps, wrapped) && cfg.Some?
    ensures var step := cfg.value.step;
            RangesOk(cfg, staged, true, InitBounds(refMs, step), rounds, steps, wrapped || InitWraps(refMs, step))
  {
    hide InitBounds, InitWraps;
    InitOrdered(refMs, cfg.value.step);
    if !wrapped && !InitWraps(refMs, cfg.value.step) {
      forall step: Millis | step > 0 && steps <= {step}
        ensures Advancing(rounds, true, InitBounds(refMs, cfg.value.step), step)
      {
        assert cfg.value.step == step && Advancing(rounds, false, b, step);
        InitAligned(refMs, step);
      }
    }
  }

  /** Every envelope made is handed out once, waits to be, is in flight, or was thrown
      away, which takes an unsized window. */
  ghost predicate Accounted(made: seq<Made>, handed: seq<Envelope>, waiting: seq<Envelope>, discarded: seq<Envelope>,
                            flight: seq<Envelope>, steps: set<Millis>)
  {
    && multiset(Envs(made)) == multiset(handed) + multiset(waiting) + multiset(discarded) + multiset(flight)
    && (discarded != [] ==> 0 in steps)
  }

  lemma AccountedConfig(made: seq<Made>, handed: seq<Envelope>, waiting: seq<Envelope>, discarded: seq<Envelope>,
                        steps: set<Millis>, step: Millis)
    requires Accounted(made, handed, waiting, discarded, [], steps)
    ensures Accounted(made, handed, waiting, discarded, [], steps + {step})
  {
    hide Envs;
  }

  lemma AccountedMore(made0: seq<Made>, made: seq<Made>, handed: seq<Envelope>, waiting: seq<Envelope>,
                      discarded: seq<Envelope>, envs: seq<Envelope>, steps: set<Millis>)
    requires Accounted(made0, handed, waiting, discarded, [], steps) && Envs(made) == Envs(made0) + envs
    ensures Accounted(made, handed, waiting, discarded, envs, steps)
    ensures Accounted(made, handed + (waiting + envs), [], discarded, [], steps)
    ensures Accounted(made, handed, waiting + envs, discarded, [], steps)
    ensures Accounted(made, handed + envs, waiting, discarded, [], steps)
    ensures 0 in steps || envs == [] ==> Accounted(made, handed, waiting, discarded + envs, [], steps)
  {
    hide Envs;
  }

  ghost predicate AllZero(offsets: Offsets)
  {
    forall id :: id in offsets ==> offsets[id] == ZERO
  }

  lemma RebasedIdle(live: Live, cache: Cache, offsets: Offsets)
    ensures live == map[] ==> Rebased(live, cache, offsets) == offsets
  {
  }

  /** Every entry of the table was closed with this range. */
  ghost predicate ClosedAll(closing: Live, closed: seq<Closed>, rng: Bounds, round: nat, c: Config)
  {
    forall k :: k in closing ==> Closed(k, closing[k], rng, true, round, c) in closed
  }

  predicate Capped(c: Config, m: Live)
  {
    c.maxSeries > 0 && |m| >= c.maxSeries
  }

  function RankOf(m: Live, k: string): (r: RankHeap.Rank)
    requires k in m
  {
    RankHeap.Rank(m[k].lastSeen, k)
  }

  /** The series that comes before every other in (last seen, key) order. */
  predicate Oldest(m: Live, k: string)
  {
    k in m && forall j :: j in m && j != k ==> RankHeap.Before(RankOf(m, k), RankOf(m, j))
  }

  lemma {:induction false} OldestExists(m: Live) returns (k: string)
    requires m != map[]
    ensures Oldest(m, k)
    decreases |m|
  {
    hide RankHeap.Before, Oldest;
    var i :| i in m;
    assert (m - {i}).Keys == m.Keys - {i};
    var j := i;
    if m - {i} != map[] {
      j := OldestExists(m - {i});
    }
    k := OlderOf(m, i, j);
  }

  lemma OlderOf(m: Live, i: string, j: string) returns (k: string)
    requires i in m && if m - {i} == map[] then j == i else Oldest(m - {i}, j)
    ensures Oldest(m, k)
  {
    hide RankHeap.Before;
    var rest := m - {i};
    assert rest.Keys == m.Keys - {i};
    assert forall x :: x in rest ==> RankOf(m, x) == RankOf(rest, x);
    RankHeap.LeTotal(RankOf(m, i), RankOf(m, j));
    k := if rest != map[] && RankHeap.Before(RankOf(m, j), RankOf(m, i)) then j else i;
    forall x | x in m && x != k
      ensures RankHeap.Before(RankOf(m, k), RankOf(m, x))
    {
      if x != i && x != j {
        assert x in rest.Keys;
        assert RankHeap.Before(RankOf(rest, j), RankOf(rest, x));
        AsymmetricRank(RankOf(m, j), RankOf(m, x));
        if k == i {
          RankHeap.LeTransitive(RankOf(m, i), RankOf(m, j), RankOf(m, x));
        }
      }
      RankHeap.LeTotal(RankOf(m, x), RankOf(m, k));
    }
  }

  lemma AsymmetricRank(a: RankHeap.Rank, b: RankHeap.Rank)
    requires RankHeap.Before(a, b)
    ensures !RankHeap.Before(b, a)
  {
    hide RankHeap.Before;
    RankHeap.LeTotal(a, b);
  }

  /** The table and the bases after an input is taken in: fed to its series, or to a
      new one that may have pushed the oldest, with its base, out of a full table. */
  ghost predicate Stores(m: Live, cache: Cache, c: Config, id: nat, key: string, i: Input, m': Live, cache': Cache)
  {
    if key in m then m' == m[key := Fed(m[key], i)] && cache' == cache
    else if !Capped(c, m) then m' == m[key := Fed(Blank(id, c, i.ts), i)] && cache' == cache
    else exists victim :: Oldest(m, victim) && cache' == cache - {victim}
                          && m' == (m - {victim})[key := Fed(Blank(id, c, i.ts), i)]
  }

  /** Whether the table takes the input in at all. */
  predicate Takes(m: Live, c: Config, key: string)
  {
    key in m || !Capped(c, m) || c.evictOldest
  }

  /** The bounds a sample is judged by. */
  ghost function StartBounds(cfg: Option<Config>, initialized: bool, b: Bounds, ts: Millis): (r: Bounds)
  {
    if cfg.None? || initialized then b else InitBounds(ts, cfg.value.step)
  }

  /** How one attempt to record a sample ends; its key is built under the active
      config. */
  ghost function Verdict(cfg: Option<Config>, matches: Config -> bool, b: Bounds, m: Live, keyOf: Config -> string,
                         ts: Millis): (r: Outcome)
  {
    if cfg.None? then NoConfig
    else if !matches(cfg.value) then Ignored
    else if b.end <= ts then FutureData
    else if ts + cfg.value.lateness < b.start then LateData
    else if Takes(m, cfg.value, keyOf(cfg.value)) then Recorded
    else CapExceeded
  }

  /** What a due rotation does: the window is closed under the config it ran with,
      its bounds advance, and a staged config is installed with an empty cache. */
  ghost predicate Rotated(a: Story, staged: Option<Config>, round: nat, nowMs: Millis, b: Story,
                          stagedAfter: Option<Config>)
  {
    && a.cfg.Some? && b.live == map[] && b.bounds == Advance(a.bounds, nowMs, a.cfg.value.step) && a.closed <= b.closed
    && (a.live != map[] ==> ClosedAll(a.live, b.closed, a.bounds, round, a.cfg.value))
    && (a.live != map[] && a.bounds != Bounds(0, 0) && staged.Some? ==>
          b.cfg == staged && stagedAfter == None && b.cache == map[])
    && (staged.None? ==> b.cfg == a.cfg && stagedAfter == None)
    && (staged.None? && a.live != map[] && !a.cfg.value.delta ==>
          forall k :: k in a.live ==> k in b.cache && b.cache[k] == CachedSnapshot(a.live[k].total))
    && (a.live == map[] ==> b.cfg == a.cfg && b.cache == a.cache && b.closed == a.closed && stagedAfter == staged)
  }

  /** What a drain does: a window that holds anything is closed as if it were due at
      its end, and a staged config is installed with an empty cache. */
  ghost predicate Drained(a: Story, staged: Option<Config>, round: nat, b: Story, stagedAfter: Option<Config>)
  {
    && a.cfg.Some? && b.live == map[] && stagedAfter == None
    && (if a.live == map[] then b.bounds == a.bounds && b.closed == a.closed
        else ClosedAll(a.live, b.closed, a.bounds, round, a.cfg.value)
             && b.bounds == Advance(a.bounds, a.bounds.end, a.cfg.value.step))
    && (if staged.Some? then b.cfg == staged && b.cache == map[] else b.cfg == a.cfg)
  }

  /** Whether the end of the first window, of the one after a due rotation, or of the one
      after a drain, wraps. */
  ghost predicate StartWraps(cfg: Option<Config>, initialized: bool, ts: Millis)
  {
    cfg.Some? && !initialized && InitWraps(ts, cfg.value.step)
  }

  ghost predicate RotationWraps(cfg: Option<Config>, initialized: bool, b: Bounds, nowMs: Millis)
  {
    cfg.Some? && initialized && b.end <= nowMs && AdvanceWraps(b, nowMs, cfg.value.step)
  }

  ghost predicate DrainWraps(cfg: Option<Config>, live: Live, b: Bounds)
  {
    cfg.Some? && live != map[] && AdvanceWraps(b, b.end, cfg.value.step)
  }

  class Precompute {
    var cfg: Option<Config>
    var pendingCfg: Option<Config>
    var initialized: bool
    var bounds: Bounds
    var series: Live
    var cache: Cache
    var pendingOutput: seq<Envelope>
    var nextId: nat

    /** Everything shipped, admitted and closed; the ranges of the rotations that
        closed something; the steps of all configs; whether the last close or reset
        left only empty bases; and whether some window's end did not fit 64 bits. */
    ghost var made: seq<Made>
    ghost var offsets: Offsets
    ghost var admitted: seq<Admission>
    ghost var closed: seq<Closed>
    ghost var rounds: seq<Bounds>
    ghost var steps: set<Millis>
    ghost var clean: bool
    ghost var wrapped: bool

    /** Every config has been a delta one and no base was reset under a live series. */
    ghost var steady: bool

    /** Envelopes handed to the caller, and those computed and then thrown away. */
    ghost var handed: seq<Envelope>
    ghost var discarded: seq<Envelope>

    ghost function Now(): (s: Story)
      reads `series, `cfg, `bounds, `nextId, `cache, `made, `offsets, `admitted, `closed
    {
      Story(series, cfg, bounds, nextId, cache, made, offsets, admitted, closed)
    }

    ghost predicate Ranges()
      reads `cfg, `pendingCfg, `initialized, `bounds, `rounds, `steps, `wrapped
    {
      RangesOk(cfg, pendingCfg, initialized, bounds, rounds, steps, wrapped)
    }

    ghost predicate Table()
      reads `cfg, `pendingCfg, `initialized, `series, `cache, `offsets, `clean, `steady, `closed, `rounds
    {
      && TableOk(cfg, initialized, series, cache, clean, closed, rounds)
      && SteadyOk(steady, clean, cfg, pendingCfg, offsets)
    }

    ghost predicate Outputs()
      reads `made, `handed, `pendingOutput, `discarded, `steps
    {
      Accounted(made, handed, pendingOutput, discarded, [], steps)
    }

    ghost predicate Valid()
      reads this
    {
      Sound(Now()) && Ranges() && Table() && Outputs()
    }

    constructor ()
      ensures Valid() && cfg == None && series == map[] && cache == map[] && clean && !initialized
      ensures admitted == [] && closed == [] && made == [] && steady && !wrapped && steps == {}
      ensures handed == [] && pendingOutput == [] && discarded == []
    {
      cfg, pendingCfg, initialized, bounds := None, None, false, Bounds(0, 0);
      series, cache, pendingOutput, nextId := map[], map[], [], 0;
      made, offsets, admitted, closed := [], map[], [], [];
      rounds, steps, clean, steady, wrapped, handed, discarded := [], {}, true, true, false, [], [];
      new;
      SoundInit();
    }

    // -------------------------------------------------------------------
    // Configs
    // -------------------------------------------------------------------

    /** Staged while the window holds data, otherwise installed at once; only an
        activation at a close resets the cache. */
    method UpdateConfig(c: Config)
      requires Valid()
      modifies `cfg, `pendingCfg, `steps, `steady
      ensures Valid() && steady == (old(steady) && c.delta) && steps == old(steps) + {c.step}
      ensures if old(cfg).Some? && series != map[] then cfg == old(cfg) && pendingCfg == Some(c)
              else cfg == Some(c) && pendingCfg == None
    {
      hide Sound, RangesOk, TableOk, Accounted, SteadyOk, InRounds, ZeroElsewhere;
      RangesConfig(cfg, pendingCfg, initialized, bounds, rounds, steps, wrapped, c);
      AccountedConfig(made, handed, pendingOutput, discarded, steps, c.step);
      SteadyConfig(steady, clean, cfg, pendingCfg, offsets, c);
      if cfg.Some? && series != map[] {
        SetConfig(cfg, Some(c), c);
      } else {
        TableParts(cfg, initialized, series, cache, clean, closed, rounds);
        TableIdle(Some(c), initialized, cache, clean, closed, rounds);
        SoundIdle(Now(), Some(c), bounds, cache);
        SetConfig(Some(c), None, c);
      }
    }

    method SetConfig(active: Option<Config>, staged: Option<Config>, ghost c: Config)
      modifies `cfg, `pendingCfg, `steps, `steady
      ensures cfg == active && pendingCfg == staged
      ensures steps == old(steps) + {c.step} && steady == (old(steady) && c.delta)
    {
      cfg, pendingCfg := active, staged;
      steps, steady := steps + {c.step}, steady && c.delta;
    }

    /** The staged config takes effect with an empty cache. */
    method ActivatePending()
      requires Sound(Now()) && Ranges() && Table() && series == map[]
      modifies `cfg, `pendingCfg, `cache, `clean
      ensures Sound(Now()) && Ranges() && Table() && pendingCfg == None
      ensures if old(pendingCfg).None? then cfg == old(cfg) && cache == old(cache) && clean == old(clean)
              else cfg == old(pendingCfg) && cache == map[] && clean
    {
      hide Sound, RangesOk, TableOk, AllZero, InRounds, ZeroElsewhere;
      if pendingCfg.Some? {
        RangesConfig(cfg, pendingCfg, initialized, bounds, rounds, steps, wrapped, pendingCfg.value);
        TableParts(cfg, initialized, series, cache, clean, closed, rounds);
        NothingElsewhere();
        TableIdle(pendingCfg, initialized, map[], true, closed, rounds);
        SoundIdle(Now(), pendingCfg, bounds, map[]);
        cfg := pendingCfg;
        pendingCfg := None;
        cache := map[];
        clean := true;
      }
    }

    /** Forces the next emit of every series to be full. */
    method ResetDeltaBase()
      requires Valid()
      modifies `cache, `clean, `offsets, `steady
      ensures Valid() && cache == map[] && steady == (old(steady) && series == map[])
      ensures offsets == Rebased(series, old(cache), old(offsets))
    {
      hide Sound, RangesOk, TableOk, Accounted, AllZero, Rebased;
      TableReset(cfg, initialized, series, cache, clean, closed, rounds);
      SoundReset(Now());
      RebasedIdle(series, cache, offsets);
      ClearCache();
    }

    method ClearCache()
      modifies `cache, `clean, `offsets, `steady
      ensures cache == map[] && clean && offsets == Rebased(series, old(cache), old(offsets))
      ensures steady == (old(steady) && series == map[])
    {
      hide Rebased;
      offsets := Rebased(series, cache, offsets);
      cache, clean, steady := map[], true, steady && series == map[];
    }

    // -------------------------------------------------------------------
    // Rotation
    // -------------------------------------------------------------------

    /** The story while a rotation is under way: `rest` still has to be serialized
        with the range `rng`. */
    ghost function Closing(rest: Live, rng: Bounds): (s: Story)
      reads `cfg, `nextId, `cache, `made, `offsets, `admitted, `closed
    {
      Story(rest, cfg, rng, nextId, cache, made, offsets, admitted, closed)
    }

    /** Serializes one closed series against the cached base and refreshes it. */
    method Serialize(k: string, rng: Bounds, ghost round: nat, rest: Live) returns (env: Option<Envelope>)
      requires cfg.Some? && k in rest && Sound(Closing(rest, rng))
      modifies `cache, `made, `closed
      ensures Sound(Closing(rest - {k}, rng))
      ensures cache == old(cache)[k := BoundaryBase(cfg.value, rest[k])]
      ensures closed == old(closed) + [Closed(k, rest[k], rng, true, round, cfg.value)]
      ensures Envs(made) == Envs(old(made)) + (if env.None? then [] else [env.value])
      ensures var p := BoundaryPayload(cfg.value, old(cache), k, rest[k]);
              if p.None? then env.None? else env.Some? && env.value.key == k && env.value.payload == p.value
                                             && env.value.start == rng.start && env.value.end == rng.end
                                             && env.value.samples == rest[k].samples && env.value.cfg == cfg.value
                                             && env.value.full == (!cfg.value.delta || k !in old(cache))
    {
      hide Sound, Delta, Snapshot, CachedSnapshot, Cached;
      var c, e := cfg.value, rest[k];
      var payload := if c.delta then Delta(Cached(cache, k), e.total) else Snapshot(e.total);
      var full := !c.delta || k !in cache;
      ghost var blank := Envelope(k, rng.start, rng.end, ZERO, full, e.samples, c);
      SoundClose(Closing(rest, rng), k, c, round, blank);
      if payload.Some? {
        env := Some(Envelope(k, rng.start, rng.end, payload.value, full, e.samples, c));
        EnvsSnoc(made, Made(e.past.id, env.value));
        made := made + [Made(e.past.id, env.value)];
      } else {
        env := None;
        assert Envs(made) + [] == Envs(made);
      }
      cache := cache[k := if c.delta then ZERO else CachedSnapshot(e.total)];
      closed := closed + [Closed(k, e, rng, true, round, c)];
    }

    /** Serializes every closed series; with deltas on, only their (empty) bases
        stay cached. */
    method FinishRotate(closing: Live, rng: Bounds, ghost round: nat) returns (envs: seq<Envelope>)
      requires cfg.Some? && Sound(Closing(closing, rng))
      modifies `cache, `made, `closed
      ensures Sound(Closing(map[], rng)) && old(closed) <= closed
      ensures ClosedAll(closing, closed, rng, round, cfg.value)
      ensures forall i :: |old(closed)| <= i < |closed| ==> closed[i].emitted && closed[i].round == round && closed[i].bounds == rng
      ensures Envs(made) == Envs(old(made)) + envs
      ensures Stamped(envs, closing, rng, cfg.value)
      ensures cfg.value.delta ==> forall k :: k in cache ==> k in closing && cache[k] == ZERO
      ensures !cfg.value.delta ==> forall k :: k in closing ==> k in cache && cache[k] == CachedSnapshot(closing[k].total)
    {
      hide Sound, BoundaryPayload, CachedSnapshot, Progressed, Envs, ClosedAll, Stamped;
      var rest := closing;
      StampedNothing(closing, rng, cfg.value);
      envs := [];
      assert Envs(made) + [] == Envs(made);
      ProgressStart(closing, closed, cache, rng, round, cfg.value);
      while rest != map[]
        invariant forall j :: j in rest ==> j in closing && rest[j] == closing[j]
        invariant Sound(Closing(rest, rng)) && Progressed(closing, rest, old(closed), closed, cache, rng, round, cfg.value)
        invariant Envs(made) == Envs(old(made)) + envs && Stamped(envs, closing, rng, cfg.value)
        decreases |rest|
      {
        var k :| k in rest;
        ProgressStep(closing, rest, old(closed), closed, cache, rng, round, cfg.value, k);
        var env := Serialize(k, rng, round, rest);
        StampedStep(envs, closing, rng, cfg.value, env);
        envs := Append(envs, env, Envs(old(made)));
        rest := rest - {k};
      }
      ProgressDone(closing, old(closed), closed, cache, rng, round, cfg.value);
      if cfg.value.delta {
        Prune(closing.Keys, rng);
      }
    }

    /** Forgets the bases of series that were not in the closed window. */
    method Prune(keys: set<string>, ghost rng: Bounds)
      requires Sound(Closing(map[], rng))
      modifies `cache
      ensures Sound(Closing(map[], rng)) && cache == map k | k in old(cache) && k in keys :: old(cache)[k]
    {
      hide Sound;
      ghost var pruned := map k | k in cache && k in keys :: cache[k];
      SoundIdle(Closing(map[], rng), cfg, rng, pruned);
      cache := map k | k in cache && k in keys :: cache[k];
    }

    /** Drains the active window and moves the bounds on; tells whether anything
        was closed. */
    method CloseWindow(nowMs: Millis) returns (envs: seq<Envelope>, emits: bool)
      requires Sound(Now()) && Ranges() && Table() && initialized && cfg.Some?
      modifies `series, `bounds, `cache, `made, `closed, `rounds, `clean, `wrapped
      ensures Sound(Now()) && Ranges() && Table() && series == map[] && old(closed) <= closed
      ensures emits == (old(series) != map[]) && bounds == Advance(old(bounds), nowMs, cfg.value.step)
      ensures wrapped == (old(wrapped) || AdvanceWraps(old(bounds), nowMs, cfg.value.step))
      ensures Envs(made) == Envs(old(made)) + envs && Stamped(envs, old(series), old(bounds), cfg.value)
      ensures emits ==> ClosedAll(old(series), closed, old(bounds), |old(rounds)|, cfg.value)
                        && rounds == old(rounds) + [old(bounds)]
      ensures !emits ==> closed == old(closed) && cache == old(cache) && envs == []
      ensures emits && !cfg.value.delta ==>
                forall k :: k in old(series) ==> k in cache && cache[k] == CachedSnapshot(old(series)[k].total)
    {
      hide Sound, CachedSnapshot, ClosedAll, Advance, AdvanceWraps, RangesOk, TableOk, SteadyOk, InRounds, ZeroElsewhere,
        Envs;
      emits := series != map[];
      TableParts(cfg, initialized, series, cache, clean, closed, rounds);
      RangesRotate(cfg, pendingCfg, bounds, rounds, steps, wrapped, nowMs, emits);
      if emits {
        envs := CloseSeries(nowMs);
      } else {
        envs := [];
        assert Envs(made) + [] == Envs(made);
        SoundIdle(Now(), cfg, Advance(bounds, nowMs, cfg.value.step), cache);
        wrapped := wrapped || AdvanceWraps(bounds, nowMs, cfg.value.step);
        bounds := Advance(bounds, nowMs, cfg.value.step);
      }
    }

    method CloseSeries(nowMs: Millis) returns (envs: seq<Envelope>)
      requires Sound(Now()) && Table() && cfg.Some? && series != map[]
      modifies `series, `bounds, `cache, `made, `closed, `rounds, `clean, `wrapped
      ensures Sound(Now()) && Table() && series == map[] && old(closed) <= closed
      ensures bounds == Advance(old(bounds), nowMs, cfg.value.step) && rounds == old(rounds) + [old(bounds)]
      ensures wrapped == (old(wrapped) || AdvanceWraps(old(bounds), nowMs, cfg.value.step))
      ensures Envs(made) == Envs(old(made)) + envs && Stamped(envs, old(series), old(bounds), cfg.value)
      ensures ClosedAll(old(series), closed, old(bounds), |old(rounds)|, cfg.value)
      ensures !cfg.value.delta ==>
                forall k :: k in old(series) ==> k in cache && cache[k] == CachedSnapshot(old(series)[k].total)
    {
      hide Sound, CachedSnapshot, ClosedAll, Advance, AdvanceWraps, TableOk, AllZero, InRounds, ZeroElsewhere, Envs,
        Stamped;
      TableParts(cfg, initialized, series, cache, clean, closed, rounds);
      var closing, rng := series, bounds;
      ghost var rounds0, closed0 := rounds, closed;
      OpenNext(nowMs);
      envs := FinishRotate(closing, rng, |rounds| - 1);
      SoundIdle(Closing(map[], rng), cfg, bounds, cache);
      RoundsGrow(closed0, closed, rounds0, rng);
      LeftZero(cache, closing, cfg.value.delta);
      TableIdle(cfg, initialized, cache, clean, closed, rounds);
    }

    method OpenNext(nowMs: Millis)
      requires cfg.Some?
      modifies `series, `bounds, `rounds, `clean, `wrapped
      ensures series == map[] && bounds == Advance(old(bounds), nowMs, cfg.value.step)
      ensures rounds == old(rounds) + [old(bounds)] && clean == cfg.value.delta
      ensures wrapped == (old(wrapped) || AdvanceWraps(old(bounds), nowMs, cfg.value.step))
    {
      hide Advance, AdvanceWraps;
      rounds, wrapped := rounds + [bounds], wrapped || AdvanceWraps(bounds, nowMs, cfg.value.step);
      series, bounds, clean := map[], Advance(bounds, nowMs, cfg.value.step), cfg.value.delta;
    }

    /** Rotates if the window is due; a staged config takes effect at a close. */
    method RotateDue(nowMs: Millis) returns (envs: seq<Envelope>)
      requires Sound(Now()) && Ranges() && Table() && cfg.Some?
      modifies `cfg, `pendingCfg, `series, `bounds, `cache, `made, `closed, `rounds, `clean, `wrapped
      ensures Sound(Now()) && Ranges() && Table() && cfg.Some? && Envs(made) == Envs(old(made)) + envs
      ensures Stamped(envs, old(series), old(bounds), old(cfg).value)
      ensures wrapped == (old(wrapped) || RotationWraps(old(cfg), initialized, old(bounds), nowMs))
      ensures if initialized && (old(cfg).value.step == 0 || old(bounds).end <= nowMs)
              then Rotated(old(Now()), old(pendingCfg), |old(rounds)|, nowMs, Now(), pendingCfg)
              else Now() == old(Now()) && pendingCfg == old(pendingCfg)
    {
      hide Sound, Ranges, Table, ClosedAll, Advance, CachedSnapshot, Envs, Stamped;
      envs := [];
      StampedNothing(series, bounds, cfg.value);
      assert Envs(made) + [] == Envs(made);
      if initialized && Due(bounds, nowMs, cfg.value.step) {
        var rng := bounds;
        var emits;
        envs, emits := CloseWindow(nowMs);
        if emits && rng != Bounds(0, 0) {
          ActivatePending();
        }
      }
    }

    /** Waiting envelopes go first, then those just made, all stamped with the window
        they close. */
    ghost predicate HandsOut(waiting: seq<Envelope>, made0: seq<Made>, closing: Live, rng: Bounds, c: Config,
                             out: seq<Envelope>)
      reads `made, `pendingOutput
    {
      && pendingOutput == [] && waiting <= out
      && Envs(made) == Envs(made0) + out[|waiting|..] && Stamped(out[|waiting|..], closing, rng, c)
    }

    method HandOut(envs: seq<Envelope>) returns (out: seq<Envelope>)
      requires Accounted(made, handed + (pendingOutput + envs), [], discarded, [], steps)
      modifies `handed, `pendingOutput
      ensures Outputs() && out == old(pendingOutput) + envs && handed == old(handed) + out && pendingOutput == []
    {
      out := pendingOutput + envs;
      handed := handed + out;
      pendingOutput := [];
    }

    method Tick(nowMs: Millis) returns (out: seq<Envelope>)
      requires Valid()
      modifies `cfg, `pendingCfg, `series, `bounds, `cache, `made, `closed, `rounds, `clean, `wrapped
      modifies `handed, `pendingOutput
      ensures Valid() && handed == old(handed) + out
      ensures wrapped == (old(wrapped) || RotationWraps(old(cfg), initialized, old(bounds), nowMs))
      ensures if old(cfg).None? then cfg.None? && out == [] && pendingOutput == old(pendingOutput)
              else cfg.Some? && HandsOut(old(pendingOutput), old(made), old(series), old(bounds), old(cfg).value, out)
      ensures old(cfg).Some? ==>
                if initialized && (old(cfg).value.step == 0 || old(bounds).end <= nowMs)
                then Rotated(old(Now()), old(pendingCfg), |old(rounds)|, nowMs, Now(), pendingCfg)
                else Now() == old(Now()) && pendingCfg == old(pendingCfg)
    {
      hide Valid, Rotated, Now, HandsOut, AdvanceWraps;
      if cfg.None? {
        assert handed + [] == handed;
        return [];
      }
      out := RotateAndHandOut(nowMs);
    }

    method RotateAndHandOut(nowMs: Millis) returns (out: seq<Envelope>)
      requires Valid() && cfg.Some?
      modifies `cfg, `pendingCfg, `series, `bounds, `cache, `made, `closed, `rounds, `clean, `wrapped
      modifies `handed, `pendingOutput
      ensures Valid() && cfg.Some? && handed == old(handed) + out
      ensures wrapped == (old(wrapped) || RotationWraps(old(cfg), initialized, old(bounds), nowMs))
      ensures HandsOut(old(pendingOutput), old(made), old(series), old(bounds), old(cfg).value, out)
      ensures if initialized && (old(cfg).value.step == 0 || old(bounds).end <= nowMs)
              then Rotated(old(Now()), old(pendingCfg), |old(rounds)|, nowMs, Now(), pendingCfg)
              else Now() == old(Now()) && pendingCfg == old(pendingCfg)
    {
      hide Sound, Ranges, Table, Rotated, Accounted, Envs, Due, Stamped;
      ghost var made0 := made;
      var envs := RotateDue(nowMs);
      AccountedMore(made0, made, handed, pendingOutput, discarded, envs, steps);
      out := HandOut(envs);
      assert out[|old(pendingOutput)|..] == envs;
    }

    /** Rotates whatever the clock says, unless nothing is live. */
    method Drain() returns (out: seq<Envelope>)
      requires Valid()
      modifies `cfg, `pendingCfg, `series, `bounds, `cache, `made, `closed, `rounds, `clean, `wrapped
      modifies `handed, `pendingOutput
      ensures Valid() && handed == old(handed) + out
      ensures wrapped == (old(wrapped) || DrainWraps(old(cfg), old(series), old(bounds)))
      ensures if old(cfg).None? then cfg.None? && out == [] && pendingOutput == old(pendingOutput)
              else HandsOut(old(pendingOutput), old(made), old(series), old(bounds), old(cfg).value, out)
      ensures old(cfg).Some? ==> Drained(old(Now()), old(pendingCfg), |old(rounds)|, Now(), pendingCfg)
    {
      hide Valid, HandsOut, Drained, Now;
      if cfg.None? {
        assert handed + [] == handed;
        return [];
      }
      out := DrainAndHandOut();
    }

    method DrainAndHandOut() returns (out: seq<Envelope>)
      requires Valid() && cfg.Some?
      modifies `cfg, `pendingCfg, `series, `bounds, `cache, `made, `closed, `rounds, `clean, `wrapped
      modifies `handed, `pendingOutput
      ensures Valid() && handed == old(handed) + out
      ensures wrapped == (old(wrapped) || DrainWraps(old(cfg), old(series), old(bounds)))
      ensures HandsOut(old(pendingOutput), old(made), old(series), old(bounds), old(cfg).value, out)
      ensures Drained(old(Now()), old(pendingCfg), |old(rounds)|, Now(), pendingCfg)
    {
      hide Sound, Ranges, Table, ClosedAll, Accounted, Envs, Advance, CachedSnapshot, Stamped;
      ghost var made0 := made;
      var envs := CloseLive();
      ActivatePending();
      AccountedMore(made0, made, handed, pendingOutput, discarded, envs, steps);
      out := HandOut(envs);
      assert out[|old(pendingOutput)|..] == envs;
    }

    method CloseLive() returns (envs: seq<Envelope>)
      requires Sound(Now()) && Ranges() && Table() && cfg.Some?
      modifies `series, `bounds, `cache, `made, `closed, `rounds, `clean, `wrapped
      ensures Sound(Now()) && Ranges() && Table() && series == map[] && Envs(made) == Envs(old(made)) + envs
      ensures wrapped == (old(wrapped) || DrainWraps(old(cfg), old(series), old(bounds)))
      ensures Stamped(envs, old(series), old(bounds), cfg.value)
      ensures if old(series) == map[] then Now() == old(Now())
              else ClosedAll(old(series), closed, old(bounds), |old(rounds)|, cfg.value)
                   && bounds == Advance(old(bounds), old(bounds).end, cfg.value.step)
    {
      hide Sound, Ranges, ClosedAll, Envs, Stamped, Advance, CachedSnapshot, ZeroElsewhere, InRounds;
      envs := [];
      StampedNothing(series, bounds, cfg.value);
      assert Envs(made) + [] == Envs(made);
      if initialized && series != map[] {
        var emits;
        envs, emits := CloseWindow(bounds.end);
      }
    }

    /** Makes room for a sample beyond the window; the envelopes wait for the next
        tick. */
    method RotateForFuture(ts: Millis)
      requires Valid() && cfg.Some?
      modifies `cfg, `pendingCfg, `series, `bounds, `cache, `made, `closed, `rounds, `clean, `wrapped, `pendingOutput
      ensures Valid() && cfg.Some?
      ensures wrapped == (old(wrapped) || RotationWraps(old(cfg), initialized, old(bounds), ts))
      ensures if initialized && (old(cfg).value.step == 0 || old(bounds).end <= ts)
              then Rotated(old(Now()), old(pendingCfg), |old(rounds)|, ts, Now(), pendingCfg)
              else Now() == old(Now()) && pendingCfg == old(pendingCfg)
    {
      hide Sound, Ranges, Table, Rotated, Accounted, Envs;
      var envs := RotateDue(ts);
      AccountedMore(old(made), made, handed, pendingOutput, discarded, envs, steps);
      pendingOutput := pendingOutput + envs;
    }

    // -------------------------------------------------------------------
    // Observation
    // -------------------------------------------------------------------

    /** Sets the first window's bounds around the first reference time. */
    method InitWindow(refMs: Millis)
      requires Valid() && cfg.Some?
      modifies `initialized, `bounds, `wrapped
      ensures Valid() && initialized
      ensures bounds == if old(initialized) then old(bounds) else InitBounds(refMs, cfg.value.step)
      ensures wrapped == (old(wrapped) || (!old(initialized) && InitWraps(refMs, cfg.value.step)))
    {
      hide Sound, RangesOk, InitBounds, InitWraps, Accounted, SteadyOk, ZeroElsewhere, InRounds;
      if !initialized {
        RangesInit(cfg, pendingCfg, bounds, rounds, steps, wrapped, refMs);
        SoundIdle(Now(), cfg, InitBounds(refMs, cfg.value.step), cache);
        bounds, wrapped := InitBounds(refMs, cfg.value.step), wrapped || InitWraps(refMs, cfg.value.step);
        initialized := true;
      }
    }

    method Feed(key: string, i: Input)
      requires Valid() && key in series && cfg.Some?
      requires i.Scalar? ==> Validate(bounds, i.ts, cfg.value.lateness) == InTime
      modifies `series, `admitted
      ensures Valid() && series == old(series)[key := Fed(old(series)[key], i)]
      ensures admitted == old(admitted) + [Admission(key, i)]
    {
      hide Sound, RangesOk, Accounted, TableOk, SteadyOk, Validate, Fed;
      SoundFeed(Now(), key, i);
      TableFeed(cfg, initialized, series, cache, clean, closed, rounds, key, Fed(series[key], i));
      series := series[key := Fed(series[key], i)];
      admitted := admitted + [Admission(key, i)];
    }

    /** The oldest series makes room and takes its cached base along. */
    method EvictOne() returns (ghost victim: string)
      requires Valid() && series != map[] && cfg.Some?
      modifies `series, `cache, `closed
      ensures Valid() && Oldest(old(series), victim) && |series| == |old(series)| - 1
      ensures forall k :: k in old(series) && k != victim ==>
                || old(series)[victim].lastSeen < old(series)[k].lastSeen
                || (old(series)[victim].lastSeen == old(series)[k].lastSeen && Order.StrLess(victim, k))
      ensures series == old(series) - {victim} && cache == old(cache) - {victim}
      ensures closed == old(closed) + [Closed(victim, old(series)[victim], bounds, false, 0, cfg.value)]
    {
      hide Sound, RangesOk, Accounted, TableOk, SteadyOk, Order.StrLess;
      ghost var oldest := OldestExists(series);
      var k :| k in series && Oldest(series, k);
      victim := k;
      ghost var x := Closed(k, series[k], bounds, false, 0, cfg.value);
      SoundEvict(Now(), k, x);
      TableEvict(cfg, initialized, series, cache, clean, closed, rounds, x);
      RemoveEntry(k, x);
    }

    method RemoveEntry(k: string, ghost x: Closed)
      modifies `series, `cache, `closed
      ensures series == old(series) - {k} && cache == old(cache) - {k} && closed == old(closed) + [x]
    {
      closed := closed + [x];
      series := series - {k};
      cache := cache - {k};
    }

    /** Admits a new series with its first input; `false` when the table is full and
        must not evict. */
    method Admit(key: string, i: Input) returns (ok: bool)
      requires Valid() && key !in series && initialized && cfg.Some?
      requires i.Scalar? ==> Validate(bounds, i.ts, cfg.value.lateness) == InTime
      modifies `series, `cache, `closed, `nextId, `offsets, `admitted
      ensures Valid() && old(closed) <= closed
      ensures ok <==> Takes(old(series), cfg.value, key)
      ensures ok <==> cfg.value.maxSeries == 0 || |old(series)| < cfg.value.maxSeries || cfg.value.evictOldest
      ensures !ok ==> Now() == old(Now())
      ensures ok ==> Stores(old(series), old(cache), cfg.value, old(nextId), key, i, series, cache)
                     && admitted == old(admitted) + [Admission(key, i)]
      ensures ok ==> OffsetOf(offsets, old(nextId)) == BaseAt(old(cache), key)
                     && (clean ==> OffsetOf(offsets, old(nextId)) == ZERO)
    {
      hide Valid, Validate, OffsetOf, BaseAt, Fed, Blank, RankHeap.Before;
      ok := true;
      if cfg.value.maxSeries > 0 && |series| >= cfg.value.maxSeries {
        if !cfg.value.evictOldest {
          return false;
        }
        TableBounded();
        BaseWithout(cache, key, series);
        ghost var victim := EvictOne();
        assert Oldest(old(series), victim);
      }
      AdmitNew(key, i);
    }

    lemma TableBounded()
      requires Valid() && cfg.Some?
      ensures cfg.value.maxSeries > 0 ==> |series| <= cfg.value.maxSeries
    {
    }

    method AdmitNew(key: string, i: Input)
      requires Valid() && key !in series && initialized && cfg.Some?
      requires cfg.value.maxSeries > 0 ==> |series| < cfg.value.maxSeries
      requires i.Scalar? ==> Validate(bounds, i.ts, cfg.value.lateness) == InTime
      modifies `series, `nextId, `offsets, `admitted
      ensures Valid() && series == old(series)[key := Fed(Blank(old(nextId), cfg.value, i.ts), i)]
      ensures nextId == old(nextId) + 1 && admitted == old(admitted) + [Admission(key, i)]
      ensures OffsetOf(offsets, old(nextId)) == BaseAt(cache, key)
      ensures clean ==> OffsetOf(offsets, old(nextId)) == ZERO
    {
      hide Sound, RangesOk, Accounted, Validate, TableOk, SteadyOk, BaseAt, Fed, Blank;
      SoundNew(Now(), key, cfg.value, i);
      var e := Fed(Blank(nextId, cfg.value, i.ts), i);
      TableNew(cfg, initialized, series, cache, clean, closed, rounds, key, e);
      SteadyNew(steady, clean, cfg, pendingCfg, offsets, nextId, BaseAt(cache, key));
      AddEntry(key, e, i);
    }

    method AddEntry(key: string, e: Entry, ghost i: Input)
      modifies `series, `nextId, `offsets, `admitted
      ensures series == old(series)[key := e] && nextId == old(nextId) + 1
      ensures offsets == old(offsets)[old(nextId) := BaseAt(cache, key)] && admitted == old(admitted) + [Admission(key, i)]
    {
      offsets := offsets[nextId := BaseAt(cache, key)];
      series := series[key := e];
      nextId := nextId + 1;
      admitted := admitted + [Admission(key, i)];
    }

    method ObserveOnce(keyOf: Config -> string, ts: Millis, v: real, matches: Config -> bool) returns (r: Outcome)
      requires Valid()
      modifies `initialized, `bounds, `wrapped, `series, `cache, `closed, `nextId, `offsets, `admitted
      ensures Valid() && old(closed) <= closed
      ensures if cfg.Some? && matches(cfg.value)
              then initialized && bounds == if old(initialized) then old(bounds) else InitBounds(ts, cfg.value.step)
              else initialized == old(initialized) && bounds == old(bounds)
      ensures wrapped == (old(wrapped) || (cfg.Some? && matches(cfg.value) && StartWraps(cfg, old(initialized), ts)))
      ensures r == Verdict(cfg, matches, bounds, old(series), keyOf, ts)
      ensures r == Recorded ==>
                var key := keyOf(cfg.value);
                && Stores(old(series), old(cache), cfg.value, old(nextId), key, Scalar(ts, v), series, cache)
                && admitted == old(admitted) + [Admission(key, Scalar(ts, v))]
      ensures r != Recorded ==> Now() == old(Now()).(bounds := bounds)
      ensures r == Recorded && keyOf(cfg.value) !in old(series) ==>
                && OffsetOf(offsets, old(nextId)) == BaseAt(old(cache), keyOf(cfg.value))
                && (clean ==> OffsetOf(offsets, old(nextId)) == ZERO)
    {
      hide Valid, Validate, InitBounds, InitWraps, OffsetOf, BaseAt, Fed, Blank, Capped, Oldest;
      if cfg.None? {
        return NoConfig;
      }
      if !matches(cfg.value) {
        return Ignored;
      }
      InitWindow(ts);
      var timing := Validate(bounds, ts, cfg.value.lateness);
      if timing == Future {
        return FutureData;
      }
      if timing == Late {
        return LateData;
      }
      var key := keyOf(cfg.value);
      if key in series {
        Feed(key, Scalar(ts, v));
        return Recorded;
      }
      var ok := Admit(key, Scalar(ts, v));
      r := if ok then Recorded else CapExceeded;
    }

    /** A sample beyond the window rotates it and is tried once more, with the key of
        the config then active.  That ends in a future-data error again exactly when the
        rotation makes no room for it and that config wants the sample. */
    method Observe(keyOf: Config -> string, ts: Millis, v: real, matches: Config -> bool) returns (r: Outcome)
      requires Valid()
      modifies `initialized, `bounds, `wrapped, `series, `cache, `closed, `nextId, `offsets, `admitted
      modifies `cfg, `pendingCfg, `made, `rounds, `clean, `pendingOutput
      ensures Valid()
      ensures var b := StartBounds(old(cfg), old(initialized), old(bounds), ts);
              var first := Verdict(old(cfg), matches, b, old(series), keyOf, ts);
              && (r == FutureData <==>
                    first == FutureData && cfg.Some? && matches(cfg.value) && !MakesRoom(b, ts, old(cfg).value.step))
              && if first != FutureData then
                && r == first && cfg == old(cfg) && pendingCfg == old(pendingCfg)
                && (r == Recorded ==> Stores(old(series), old(cache), cfg.value, old(nextId), keyOf(cfg.value),
                                             Scalar(ts, v), series, cache))
                && (r != Recorded ==> series == old(series))
              else
                && bounds == Advance(b, ts, old(cfg).value.step)
                && (exists mid :: Rotated(old(Now()).(bounds := b), old(pendingCfg), |old(rounds)|, ts, mid, pendingCfg)
                                  && cfg == mid.cfg && mid.closed <= closed)
                && r == Verdict(cfg, matches, bounds, map[], keyOf, ts)
                && series == if r != Recorded then map[]
                             else map[keyOf(cfg.value) := Fed(Blank(old(nextId), cfg.value, ts), Scalar(ts, v))]
      ensures var b := StartBounds(old(cfg), old(initialized), old(bounds), ts);
              var wanted := old(cfg).Some? && matches(old(cfg).value);
              && initialized == (old(initialized) || wanted)
              && wrapped == (old(wrapped) || (wanted && StartWraps(old(cfg), old(initialized), ts)) ||
                             (wanted && b.end <= ts && AdvanceWraps(b, ts, old(cfg).value.step)))
      ensures r == Recorded ==> cfg.Some? && keyOf(cfg.value) in series
                                && admitted == old(admitted) + [Admission(keyOf(cfg.value), Scalar(ts, v))]
      ensures r != Recorded ==> admitted == old(admitted)
    {
      hide Valid, Validate, Advance, AdvanceWraps, InitWraps, MakesRoom, Rotated, Capped, Fed, Blank, InitBounds,
        Oldest;
      r := ObserveOnce(keyOf, ts, v, matches);
      if r == FutureData {
        r := RotateAndRetry(keyOf, ts, v, matches);
      }
    }

    method RotateAndRetry(keyOf: Config -> string, ts: Millis, v: real, matches: Config -> bool) returns (r: Outcome)
      requires Valid() && initialized && cfg.Some? && Validate(bounds, ts, cfg.value.lateness) == Future
      modifies `initialized, `bounds, `wrapped, `series, `cache, `closed, `nextId, `offsets, `admitted
      modifies `cfg, `pendingCfg, `made, `rounds, `clean, `pendingOutput
      ensures Valid() && cfg.Some? && initialized && bounds == Advance(old(bounds), ts, old(cfg).value.step)
      ensures wrapped == (old(wrapped) || AdvanceWraps(old(bounds), ts, old(cfg).value.step))
      ensures r == FutureData <==> matches(cfg.value) && !MakesRoom(old(bounds), ts, old(cfg).value.step)
      ensures exists mid :: Rotated(old(Now()), old(pendingCfg), |old(rounds)|, ts, mid, pendingCfg)
                            && cfg == mid.cfg && mid.closed <= closed
      ensures r == Verdict(cfg, matches, bounds, map[], keyOf, ts)
      ensures series == if r != Recorded then map[]
                        else map[keyOf(cfg.value) := Fed(Blank(old(nextId), cfg.value, ts), Scalar(ts, v))]
      ensures admitted == if r == Recorded then old(admitted) + [Admission(keyOf(cfg.value), Scalar(ts, v))]
                          else old(admitted)
    {
      hide Valid, Validate, Advance, AdvanceWraps, InitWraps, MakesRoom, Rotated, Due, Capped, Fed, Blank,
        InitBounds, Oldest;
      ghost var c, s0, staged, round := cfg.value, Now(), pendingCfg, |rounds|;
      RetryAccepted(bounds, ts, c.step, c.lateness);
      FutureIsDue(bounds, ts, c.lateness, c.step);
      RotateForFuture(ts);
      RotatedBounds(s0, staged, round, ts, Now(), pendingCfg);
      FutureIgnoresLateness(bounds, ts, c.lateness, cfg.value.lateness);
      ghost var mid, empty, cache0, id := Now(), series, cache, nextId;
      r := ObserveOnce(keyOf, ts, v, matches);
      if r == Recorded {
        FirstStored(cfg.value, keyOf(cfg.value), empty, cache0, Scalar(ts, v), id, series, cache);
      }
      assert Rotated(s0, staged, round, ts, mid, pendingCfg) && mid.closed <= closed;
    }

    /** Upstream summaries are merged whatever their time, unless they are for another
        aggregation or sketch family.  One that does not parse is an error, but its
        series has been admitted, or emptied, by then. */
    method ObserveEnvelope(keyOf: Config -> string, i: Input, accepts: Config -> bool) returns (r: Outcome)
      requires Valid() && !i.Scalar?
      modifies `initialized, `bounds, `wrapped, `series, `cache, `closed, `nextId, `offsets, `admitted
      ensures Valid() && old(closed) <= closed
      ensures r == if cfg.None? then NoConfig
                   else if !accepts(cfg.value) then Mismatched
                   else if !Takes(old(series), cfg.value, keyOf(cfg.value)) then CapExceeded
                   else if i.Broken? then Malformed else Recorded
      ensures r == NoConfig || r == Mismatched ==> bounds == old(bounds) && initialized == old(initialized)
      ensures r in {Recorded, Malformed, CapExceeded} ==>
                initialized && bounds == if old(initialized) then old(bounds) else InitBounds(i.ts, cfg.value.step)
      ensures wrapped == (old(wrapped) || (r !in {NoConfig, Mismatched} && StartWraps(cfg, old(initialized), i.ts)))
      ensures r in {Recorded, Malformed} ==>
                && Stores(old(series), old(cache), cfg.value, old(nextId), keyOf(cfg.value), i, series, cache)
                && admitted == old(admitted) + [Admission(keyOf(cfg.value), i)]
      ensures r !in {Recorded, Malformed} ==> Now() == old(Now()).(bounds := bounds)
    {
      hide Valid, InitBounds, InitWraps, Capped, Fed, Blank, Oldest;
      if cfg.None? {
        return NoConfig;
      }
      if !accepts(cfg.value) {
        return Mismatched;
      }
      InitWindow(i.ts);
      var key := keyOf(cfg.value);
      if key in series {
        Feed(key, i);
        return if i.Broken? then Malformed else Recorded;
      }
      var ok := Admit(key, i);
      r := if !ok then CapExceeded else if i.Broken? then Malformed else Recorded;
    }

    // -------------------------------------------------------------------
    // Sub-window emits
    // -------------------------------------------------------------------

    /** Ships what a live series gained since its last emit. */
    method ShipOne(k: string) returns (env: Option<Envelope>)
      requires Sound(Now()) && Table() && k in series && cfg.Some? && cfg.value.delta
      modifies `cache, `made
      ensures Sound(Now()) && Table() && cache == old(cache)[k := CachedSnapshot(series[k].total)]
      ensures Envs(made) == Envs(old(made)) + (if env.None? then [] else [env.value])
      ensures var p := Delta(Cached(old(cache), k), series[k].total);
              if p.None? then env.None?
              else env == Some(Envelope(k, bounds.start, bounds.end, p.value, k !in old(cache), series[k].samples, cfg.value))
    {
      hide Sound, TableOk, SteadyOk, Delta, CachedSnapshot, Cached, Envs;
      var e := series[k];
      var payload := Delta(Cached(cache, k), e.total);
      ghost var blank := Envelope(k, bounds.start, bounds.end, ZERO, k !in cache, e.samples, cfg.value);
      SoundShip(Now(), k, blank);
      TableShip(cfg, initialized, series, cache, clean, closed, rounds, k, CachedSnapshot(e.total));
      if payload.Some? {
        env := Some(Envelope(k, bounds.start, bounds.end, payload.value, k !in cache, e.samples, cfg.value));
        EnvsSnoc(made, Made(e.past.id, env.value));
        made := made + [Made(e.past.id, env.value)];
      } else {
        env := None;
        assert Envs(made) + [] == Envs(made);
      }
      cache := cache[k := CachedSnapshot(e.total)];
    }

    /** Emits for the live series that diverged enough, without rotating.  What was
        made under the range from 0 to 0 is thrown away. */
    method EmitSubWindow(diverged: set<string>) returns (envs: seq<Envelope>, ghost lost: seq<Envelope>)
      requires Valid()
      modifies `cache, `made, `handed, `discarded
      ensures Valid() && handed == old(handed) + envs && discarded == old(discarded) + lost
      ensures cfg.None? || !cfg.value.delta ==> cache == old(cache) && made == old(made) && envs == lost == []
      ensures cfg.Some? && cfg.value.delta ==>
                var keys := series.Keys * diverged;
                && cache == old(cache) + Refreshed(series, keys)
                && Emits(keys, series, bounds, cfg.value, old(cache), envs + lost)
      ensures if bounds == Bounds(0, 0) then envs == [] else lost == []
    {
      hide Sound, RangesOk, TableOk, SteadyOk, Accounted, Envs, Emits;
      envs, lost := [], [];
      assert handed + [] == handed && discarded + [] == discarded;
      if cfg.Some? && cfg.value.delta {
        var sent := ShipAll(series.Keys * diverged);
        AccountedMore(old(made), made, handed, pendingOutput, discarded, sent, steps);
        if bounds == Bounds(0, 0) {
          NoneFromNothing(series.Keys * diverged, series, bounds, cfg.value, old(cache), sent);
          ZeroRange();
          lost := sent;
          discarded := discarded + lost;
        } else {
          envs := sent;
          handed := handed + envs;
        }
        assert envs + lost == sent;
      }
    }

    lemma ZeroRange()
      requires Ranges() && Table() && bounds == Bounds(0, 0)
      ensures series == map[] || 0 in steps
    {
    }

    method ShipAll(keys: set<string>) returns (envs: seq<Envelope>)
      requires Sound(Now()) && Table() && keys <= series.Keys && cfg.Some? && cfg.value.delta
      modifies `cache, `made
      ensures Sound(Now()) && Table() && Envs(made) == Envs(old(made)) + envs
      ensures cache == old(cache) + Refreshed(series, keys)
      ensures Emits(keys, series, bounds, cfg.value, old(cache), envs)
    {
      hide Sound, Table, Envs, CachedSnapshot, Delta, Cached, Emits, Refreshed;
      var todo := keys;
      envs := [];
      assert Envs(made) + [] == Envs(made) && keys - todo == {};
      EmitsNothing(series, bounds, cfg.value, cache);
      RefreshedNone(cache, series);
      while todo != {}
        invariant Sound(Now()) && Table() && todo <= keys
        invariant Envs(made) == Envs(old(made)) + envs
        invariant cache == old(cache) + Refreshed(series, keys - todo)
        invariant Emits(keys - todo, series, bounds, cfg.value, old(cache), envs)
        decreases |todo|
      {
        var k :| k in todo;
        RefreshedStep(old(cache), series, keys - todo, k);
        var env := ShipOne(k);
        EmitsStep(keys - todo, series, bounds, cfg.value, old(cache), envs, k, env);
        envs := Append(envs, env, Envs(old(made)));
        assert keys - todo + {k} == keys - (todo - {k});
        todo := todo - {k};
      }
      assert keys - todo == keys;
    }

    // -------------------------------------------------------------------
    // What holds in every reachable state
    // -------------------------------------------------------------------

    /** Every admitted input is in exactly one window: the inputs of a key are those
        of its closed entries in order, then those of its live entry; and entries are
        what their inputs make them. */
    lemma ExactlyOnce(key: string)
      requires Valid()
      ensures LogFor(admitted, key) == ClosedLog(closed, key) + LiveLog(series, key)
      ensures key in series ==> Faithful(series[key]) && InTimeAll(series[key].past.inputs, bounds, series[key].past.cfg.lateness)
      ensures forall i :: 0 <= i < |closed| ==>
                Faithful(closed[i].entry)
                && InTimeAll(closed[i].entry.past.inputs, closed[i].bounds, closed[i].entry.past.cfg.lateness)
    {
      hide Faithful, InTimeAll, Telescoped, Ranges, Table, Outputs, LogFor, ClosedLog, LiveLog, MadeBelow;
      if key in series {
        assert EntryOk(series[key], cfg, bounds, nextId);
      }
      assert forall i :: 0 <= i < |closed| ==> RetiredAt(closed[i], made, offsets);
    }

    /** Every entry holds the sum of its inputs since the last delta for another upstream
        window, and its times and counts are theirs. */
    lemma EntriesHoldSums(e: Entry)
      requires Valid() && ((exists k :: k in series && series[k] == e)
                           || exists i :: 0 <= i < |closed| && closed[i].entry == e)
      ensures var inputs := e.past.inputs;
              && inputs != [] && e.total == Worths(inputs[Since(inputs)..])
              && e.samples == Reports(inputs) && e.lastSeen == Latest(inputs, inputs[0].ts)
    {
      hide InTimeAll, Telescoped, Ranges, Table, Outputs, Logged, MadeBelow, Worths, Since, Reports, Latest;
      assert forall k :: k in series ==> EntryOk(series[k], cfg, bounds, nextId);
      assert forall i :: 0 <= i < |closed| ==> RetiredAt(closed[i], made, offsets);
      HoldsSum(e.past, FirstSeen(e.past));
    }

    /** Live entries belong to the active config; a closed entry was serialized under
        the config that admitted it. */
    lemma GenerationsNeverMix()
      requires Valid()
      ensures forall k :: k in series ==> cfg == Some(series[k].past.cfg)
      ensures forall i :: 0 <= i < |closed| && closed[i].emitted ==> closed[i].served == closed[i].entry.past.cfg
    {
      hide Faithful, InTimeAll, Telescoped, Ranges, Table, Outputs, Logged, MadeBelow;
      assert forall k :: k in series ==> EntryOk(series[k], cfg, bounds, nextId);
      assert forall i :: 0 <= i < |closed| ==> RetiredAt(closed[i], made, offsets);
    }

    lemma IndexOf(c: Closed) returns (i: nat)
      requires c in closed
      ensures i < |closed| && closed[i] == c
    {
      i :| 0 <= i < |closed| && closed[i] == c;
    }

    lemma RoundPast(i: nat)
      requires Valid() && i < |closed| && closed[i].emitted
      ensures closed[i].round < |rounds|
    {
      hide Sound, RangesOk, SteadyOk, Accounted, ZeroElsewhere;
    }

    /** The payloads of a closed entry fold to its window total less its offset. */
    lemma FoldFromOffset(i: nat)
      requires Valid() && i < |closed| && closed[i].emitted && AllWellFormed(closed[i].entry.past.inputs)
      ensures var c := closed[i];
              Folded(made, c.entry.past.id).Plus(if c.served.delta then OffsetOf(offsets, c.entry.past.id) else ZERO)
              == c.entry.total
    {
      hide EntriesOk, Faithful, InTimeAll, Telescoped, Ranges, Table, Outputs, Logged, MadeBelow, Folded;
      assert RetiredAt(closed[i], made, offsets);
    }

    /** With deltas on, the payloads of a closed entry fold to its window total if and
        only if the incarnation started from an empty base. */
    lemma FoldIsTotalIff(i: nat)
      requires Valid() && i < |closed| && closed[i].emitted && AllWellFormed(closed[i].entry.past.inputs)
      ensures var c := closed[i];
              Folded(made, c.entry.past.id) == c.entry.total <==>
              !c.served.delta || OffsetOf(offsets, c.entry.past.id) == ZERO
    {
      hide EntriesOk, Faithful, InTimeAll, Telescoped, Ranges, Table, Outputs, Logged, MadeBelow, Folded;
      assert RetiredAt(closed[i], made, offsets);
    }

    /** As long as every config is a delta one and no base is reset under a live series,
        whatever the interleaving of inputs, emits and evictions, the payloads of every
        closed entry fold to its own window total. */
    lemma DeltasTelescope()
      requires Valid() && steady
      ensures forall i :: 0 <= i < |closed| && closed[i].emitted && AllWellFormed(closed[i].entry.past.inputs) ==>
                Folded(made, closed[i].entry.past.id) == closed[i].entry.total
    {
      hide Sound, RangesOk, TableOk, Accounted, Folded, AllWellFormed;
      forall i | 0 <= i < |closed| && closed[i].emitted && AllWellFormed(closed[i].entry.past.inputs)
        ensures Folded(made, closed[i].entry.past.id) == closed[i].entry.total
      {
        FoldIsTotalIff(i);
      }
    }

    /** Every envelope made is handed out exactly once or still waits, unless an
        unsized config was ever given. */
    lemma HandedOnce()
      requires Valid() && 0 !in steps
      ensures multiset(Envs(made)) == multiset(handed) + multiset(pendingOutput)
    {
      hide Sound, RangesOk, TableOk, SteadyOk, Envs;
    }

    /** With one step for every config and no window end that wrapped, ranges of different
        rotations never overlap and only move forward. */
    lemma RangesNeverOverlap(step: Millis, i: nat, j: nat)
      requires Valid() && step > 0 && steps <= {step} && !wrapped
      requires i < |closed| && j < |closed| && closed[i].emitted && closed[j].emitted
      ensures Aligned(closed[i].bounds, step) && closed[i].bounds.end <= bounds.start
      ensures closed[i].round < closed[j].round ==> closed[i].bounds.end <= closed[j].bounds.start
      ensures closed[i].round == closed[j].round ==> closed[i].bounds == closed[j].bounds
    {
      hide Sound, Outputs, ZeroElsewhere;
      assert Advancing(rounds, initialized, bounds, step);
    }
  }

  lemma RoundsGrow(closed0: seq<Closed>, closed: seq<Closed>, rounds: seq<Bounds>, rng: Bounds)
    requires closed0 <= closed && InRounds(closed0, rounds)
    requires forall i :: |closed0| <= i < |closed| ==> closed[i].round == |rounds| && closed[i].bounds == rng
    ensures InRounds(closed, rounds + [rng])
  {
    forall i | 0 <= i < |closed| && closed[i].emitted
      ensures closed[i].round < |rounds| + 1 && (rounds + [rng])[closed[i].round] == closed[i].bounds
    {
      if i < |closed0| {
        assert closed0[i] == closed[i];
      }
    }
  }

  /** How far a rotation has got: what is no longer in `rest` has been closed and
      its base refreshed. */
  ghost predicate Progressed(closing: Live, rest: Live, closed0: seq<Closed>, closed: seq<Closed>, cache: Cache,
                             rng: Bounds, round: nat, c: Config)
  {
    && closed0 <= closed
    && (forall k :: k in rest ==> k in closing && rest[k] == closing[k])
    && (forall k :: k in closing && k !in rest ==> Closed(k, closing[k], rng, true, round, c) in closed)
    && (forall k :: k in closing && k !in rest ==> k in cache && cache[k] == BoundaryBase(c, closing[k]))
    && (forall i :: |closed0| <= i < |closed| ==>
          closed[i].emitted && closed[i].round == round && closed[i].bounds == rng)
  }

  lemma ProgressStart(closing: Live, closed: seq<Closed>, cache: Cache, rng: Bounds, round: nat, c: Config)
    ensures Progressed(closing, closing, closed, closed, cache, rng, round, c)
  {
  }

  lemma ProgressStep(closing: Live, rest: Live, closed0: seq<Closed>, closed: seq<Closed>, cache: Cache,
                     rng: Bounds, round: nat, c: Config, k: string)
    requires Progressed(closing, rest, closed0, closed, cache, rng, round, c) && k in rest
    ensures Progressed(closing, rest - {k}, closed0, closed + [Closed(k, rest[k], rng, true, round, c)],
                       cache[k := BoundaryBase(c, rest[k])], rng, round, c)
    ensures |rest - {k}| < |rest|
  {
    hide BoundaryBase;
    assert (rest - {k}).Keys == rest.Keys - {k};
    var x := Closed(k, rest[k], rng, true, round, c);
    var all := closed + [x];
    assert all[|closed|] == x;
    forall j | j in closing && j !in rest - {k}
      ensures Closed(j, closing[j], rng, true, round, c) in all
    {
      if j != k {
        assert Closed(j, closing[j], rng, true, round, c) in closed;
      }
    }
  }

  lemma ProgressDone(closing: Live, closed0: seq<Closed>, closed: seq<Closed>, cache: Cache,
                     rng: Bounds, round: nat, c: Config)
    requires Progressed(closing, map[], closed0, closed, cache, rng, round, c)
    ensures closed0 <= closed && ClosedAll(closing, closed, rng, round, c)
    ensures forall k :: k in closing ==> k in cache && cache[k] == BoundaryBase(c, closing[k])
    ensures forall i :: |closed0| <= i < |closed| ==>
              closed[i].emitted && closed[i].round == round && closed[i].bounds == rng
  {
    hide BoundaryBase;
  }

  /** The bases an emit leaves behind. */
  ghost function Refreshed(live: Live, keys: set<string>): (m: Cache)
    requires keys <= live.Keys
  {
    map k | k in keys :: CachedSnapshot(live[k].total)
  }

  lemma RefreshedNone(cache: Cache, live: Live)
    ensures cache + Refreshed(live, {}) == cache
  {
  }

  lemma RefreshedStep(cache: Cache, live: Live, done: set<string>, k: string)
    requires done <= live.Keys && k in live && k !in done
    ensures var now := cache + Refreshed(live, done);
            && (k in now <==> k in cache) && Cached(now, k) == Cached(cache, k)
            && now[k := CachedSnapshot(live[k].total)] == cache + Refreshed(live, done + {k})
  {
  }

  /** One envelope for each of `keys` that gained anything since its last emit, and
      no other. */
  ghost predicate Emits(keys: set<string>, live: Live, b: Bounds, c: Config, cache: Cache, envs: seq<Envelope>)
  {
    && keys <= live.Keys
    && (forall e :: e in envs ==>
          && e.key in keys && Delta(Cached(cache, e.key), live[e.key].total) == Some(e.payload)
          && e == Envelope(e.key, b.start, b.end, e.payload, e.key !in cache, live[e.key].samples, c))
    && (forall k :: k in keys && Delta(Cached(cache, k), live[k].total).Some? ==> exists e :: e in envs && e.key == k)
    && (forall i, j :: 0 <= i < j < |envs| ==> envs[i].key != envs[j].key)
  }

  lemma EmitsNothing(live: Live, b: Bounds, c: Config, cache: Cache)
    ensures Emits({}, live, b, c, cache, [])
  {
  }

  lemma NoneFromNothing(keys: set<string>, live: Live, b: Bounds, c: Config, cache: Cache, envs: seq<Envelope>)
    requires Emits(keys, live, b, c, cache, envs)
    ensures live == map[] ==> envs == []
  {
    assert envs != [] ==> envs[0] in envs;
  }

  lemma EmitsStep(done: set<string>, live: Live, b: Bounds, c: Config, cache: Cache, envs: seq<Envelope>,
                  k: string, env: Option<Envelope>)
    requires Emits(done, live, b, c, cache, envs) && k in live && k !in done
    requires var p := Delta(Cached(cache, k), live[k].total);
             if p.None? then env.None?
             else env == Some(Envelope(k, b.start, b.end, p.value, k !in cache, live[k].samples, c))
    ensures Emits(done + {k}, live, b, c, cache, if env.None? then envs else envs + [env.value])
  {
    hide Delta, Cached;
    var all := if env.None? then envs else envs + [env.value];
    forall j | j in done + {k} && Delta(Cached(cache, j), live[j].total).Some?
      ensures exists e :: e in all && e.key == j
    {
      if j == k {
        assert all[|envs|].key == k;
      } else {
        var e :| e in envs && e.key == j;
        assert e in all;
      }
    }
  }

  /** What every envelope of a rotation carries besides its payload. */
  ghost predicate Stamped(envs: seq<Envelope>, closing: Live, rng: Bounds, c: Config)
  {
    forall e :: e in envs ==>
      e.key in closing && e.start == rng.start && e.end == rng.end && e.samples == closing[e.key].samples && e.cfg == c
  }

  lemma StampedNothing(closing: Live, rng: Bounds, c: Config)
    ensures Stamped([], closing, rng, c)
  {
  }

  lemma StampedStep(envs: seq<Envelope>, closing: Live, rng: Bounds, c: Config, env: Option<Envelope>)
    requires Stamped(envs, closing, rng, c) && (env.Some? ==> Stamped([env.value], closing, rng, c))
    ensures Stamped(if env.None? then envs else envs + [env.value], closing, rng, c)
  {
  }

  /** Adds an envelope if there is one. */
  function Append(envs: seq<Envelope>, env: Option<Envelope>, ghost before: seq<Envelope>): (r: seq<Envelope>)
    ensures before + r == (before + envs) + (if env.None? then [] else [env.value])
  {
    if env.None? then
      assert (before + envs) + [] == before + envs;
      envs
    else
      assert before + (envs + [env.value]) == (before + envs) + [env.value];
      envs + [env.value]
  }

  lemma InitOrdered(refMs: Millis, step: Millis)
    ensures !InitWraps(refMs, step) ==> InitBounds(refMs, step).start <= InitBounds(refMs, step).end
    ensures InitBounds(refMs, step).start == InitBounds(refMs, step).end ==> step == 0
  {
    if step > 0 {
      PlusIs(Bucket(refMs, step), step);
    }
  }

  lemma ZeroEvict(cache: Cache, live: Live, victim: string)
    requires victim in live
    ensures ZeroElsewhere(cache, live) ==> ZeroElsewhere(cache - {victim}, live - {victim})
    ensures |live - {victim}| == |live| - 1 && (live - {victim}).Keys <= live.Keys
  {
    assert (live - {victim}).Keys == live.Keys - {victim};
  }

  lemma ZeroNew(cache: Cache, live: Live, key: string, e: Entry)
    requires key !in live
    ensures ZeroElsewhere(cache, live) ==> ZeroElsewhere(cache, live[key := e]) && BaseAt(cache, key) == ZERO
    ensures |live[key := e]| == |live| + 1
  {
    assert live[key := e].Keys == live.Keys + {key};
  }

  lemma BaseWithout(cache: Cache, key: string, live: Live)
    requires key !in live
    ensures forall victim :: victim in live ==> BaseAt(cache - {victim}, key) == BaseAt(cache, key)
  {
  }

  lemma RoundsSame(closed: seq<Closed>, x: Closed, rounds: seq<Bounds>)
    requires InRounds(closed, rounds) && !x.emitted
    ensures InRounds(closed + [x], rounds)
  {
  }

  lemma FutureIsDue(b: Bounds, ts: Millis, lateness: nat, step: Millis)
    requires Validate(b, ts, lateness) == Future
    ensures Due(b, ts, step)
  {
  }

  lemma FutureIgnoresLateness(b: Bounds, ts: Millis, l: nat, m: nat)
    ensures Validate(b, ts, l) == Future <==> Validate(b, ts, m) == Future
  {
  }

  lemma RotatedBounds(a: Story, staged: Option<Config>, round: nat, nowMs: Millis, b: Story, after: Option<Config>)
    requires Rotated(a, staged, round, nowMs, b, after)
    ensures a.cfg.Some? && b.live == map[] && b.bounds == Advance(a.bounds, nowMs, a.cfg.value.step)
  {
  }

  /** An empty table takes a series in without pushing one out. */
  lemma FirstStored(c: Config, key: string, m: Live, cache: Cache, i: Input, id: nat, m': Live, cache': Cache)
    requires m == map[] && Stores(m, cache, c, id, key, i, m', cache')
    ensures m' == map[key := Fed(Blank(id, c, i.ts), i)]
  {
    hide Fed, Blank, Oldest;
  }

  lemma AdvanceOrdered(b: Bounds, nowMs: Millis, step: Millis)
    ensures !AdvanceWraps(b, nowMs, step) ==> Advance(b, nowMs, step).start <= Advance(b, nowMs, step).end
    ensures Advance(b, nowMs, step).start == Advance(b, nowMs, step).end ==> step == 0
  {
    if step > 0 {
      PlusIs(NextStart(b, nowMs, step), step);
    }
  }

  const FULLS: Config := Config(0, 10, 0, 0, false, false)
  const DELTAS: Config := Config(1, 10, 0, 0, false, true)

  lemma ExampleTimes()
    ensures InitBounds(0, 10) == Bounds(0, 10) && Validate(Bounds(0, 10), 0, 0) == InTime
    ensures Due(Bounds(0, 10), 10, 10) && Advance(Bounds(0, 10), 10, 10) == Bounds(10, 20)
    ensures Validate(Bounds(10, 20), 10, 0) == InTime && Due(Bounds(10, 20), 20, 10)
  {
  }

  lemma FirstTotal(id: nat, c: Config, ts: Millis, v: real)
    ensures Fed(Blank(id, c, ts), Scalar(ts, v)).total == Amount(v, 1)
    ensures CachedSnapshot(Amount(v, 1)) == Amount(v, 1)
    ensures AllWellFormed(Fed(Blank(id, c, ts), Scalar(ts, v)).past.inputs)
    ensures Fed(Blank(id, c, ts), Scalar(ts, v)).past.id == id
  {
  }

  /** An uncapped config takes any sample in time into an empty table. */
  lemma FirstRecorded(c: Config, matches: Config -> bool, b: Bounds, keyOf: Config -> string, key: string, ts: Millis)
    requires matches(c) && c.maxSeries == 0 && keyOf(c) == key
    ensures Takes(map[], c, key)
    ensures Validate(b, ts, c.lateness) == InTime ==> Verdict(Some(c), matches, b, map[], keyOf, ts) == Recorded
    ensures forall id: nat, i: Input, m, b, b' :: Stores(map[], b, c, id, key, i, m, b') ==>
              m == map[key := Fed(Blank(id, c, i.ts), i)] && b' == b
  {
    hide Validate, Fed, Blank;
  }

  /** One window under the non-delta config leaves its total in the cache. */
  method LeaveStaleBase() returns (p: Precompute)
    ensures fresh(p) && p.Valid() && p.cfg == Some(FULLS) && p.pendingCfg == None && p.series == map[]
    ensures p.initialized && p.bounds == Bounds(10, 20) && BaseAt(p.cache, "k") == Amount(5.0, 1)
  {
    ExampleTimes();
    hide Precompute.Valid, Validate, Advance, InitBounds, Due, Fed, Blank, CachedSnapshot, ClosedAll, OffsetOf,
      Verdict, Stores, Precompute.HandsOut;
    p := new Precompute();
    p.UpdateConfig(FULLS);
    FirstTotal(p.nextId, FULLS, 0, 5.0);
    var always, k := (c: Config) => true, (c: Config) => "k";
    FirstRecorded(FULLS, always, Bounds(0, 10), k, "k", 0);
    var r := p.ObserveOnce(k, 0, 5.0, always);
    var out := p.Tick(10);
  }

  /** A non-delta close leaves its totals cached; a delta config installed on the
      empty window does not clear them, and the next window ships 3 - 5. */
  method StaleBaseExample() returns (p: Precompute, ghost i: nat)
    ensures p.Valid() && i < |p.closed| && p.closed[i].emitted && p.closed[i].served.delta
    ensures p.closed[i].entry.total == Amount(3.0, 1)
    ensures Folded(p.made, p.closed[i].entry.past.id) == Amount(-2.0, 0)
  {
    ExampleTimes();
    hide Precompute.Valid, Validate, Advance, InitBounds, Due, Fed, Blank, CachedSnapshot, BaseAt, OffsetOf, Folded,
      Verdict, Stores, Precompute.HandsOut;
    p := LeaveStaleBase();
    p.UpdateConfig(DELTAS);
    ghost var id := p.nextId;
    FirstTotal(id, DELTAS, 10, 3.0);
    var always, k := (c: Config) => true, (c: Config) => "k";
    FirstRecorded(DELTAS, always, Bounds(10, 20), k, "k", 10);
    var r := p.ObserveOnce(k, 10, 3.0, always);
    ghost var e, round := p.series["k"], |p.rounds|;
    assert OffsetOf(p.offsets, id) == Amount(5.0, 1);
    var out := p.Tick(20);
    i := p.IndexOf(Closed("k", e, Bounds(10, 20), true, round, DELTAS));
    p.FoldFromOffset(i);
  }

  const MINUTES: Config := Config(3, 60000, 0, 0, false, true)

  lemma WrapTimes()
    ensures var b := Bounds(1700000040000, 1700000100000);
            var c := Bounds(18446744073709500000, 8384);
            var d := Bounds(8384, 68384);
            && InitBounds(1700000040000, 60000) == b && Validate(b, 1700000040000, 0) == InTime
            && Validate(b, MAX_MILLIS, 0) == Future && Advance(b, MAX_MILLIS, 60000) == c
            && AdvanceWraps(b, MAX_MILLIS, 60000) && Validate(c, MAX_MILLIS, 0) == Future
            && Validate(c, 1700000100001, 0) == Future && Advance(c, 1700000100001, 60000) == d
            && Validate(d, 1700000100001, 0) == Future
            && Validate(d, 10000, 0) == InTime && Due(d, 68384, 60000)
  {
  }

  /** Nothing is refused by an uncapped config that wants the sample, but for its time. */
  lemma TimeDecides(c: Config, matches: Config -> bool, b: Bounds, m: Live, keyOf: Config -> string, ts: Millis)
    requires matches(c) && c.maxSeries == 0
    ensures Validate(b, ts, c.lateness) == Future ==> Verdict(Some(c), matches, b, m, keyOf, ts) == FutureData
    ensures Validate(b, ts, c.lateness) == InTime ==> Verdict(Some(c), matches, b, m, keyOf, ts) == Recorded
  {
    hide Validate;
  }

  /** With nothing staged a rotation keeps the config and closes what was live. */
  lemma RotatedPlain(a: Story, round: nat, nowMs: Millis, b: Story, after: Option<Config>, key: string)
    requires Rotated(a, None, round, nowMs, b, after) && key in a.live
    ensures b.cfg == a.cfg && after == None && a.cfg.Some? && a.closed <= b.closed
    ensures Closed(key, a.live[key], a.bounds, true, round, a.cfg.value) in b.closed
  {
  }

  lemma RotatedSame(a: Story, round: nat, nowMs: Millis, b: Story, after: Option<Config>)
    requires Rotated(a, None, round, nowMs, b, after)
    ensures b.cfg == a.cfg && after == None && a.closed <= b.closed
  {
  }

  /** A minute window with one sample is told of the greatest time. */
  method TellGreatest() returns (p: Precompute, r: Outcome, ghost i: nat)
    ensures fresh(p) && p.Valid() && p.cfg == Some(MINUTES) && p.pendingCfg == None && p.initialized
    ensures p.steps == {MINUTES.step} && p.wrapped && r == FutureData
    ensures p.bounds == Bounds(18446744073709500000, 8384) && p.series == map[]
    ensures i < |p.closed| && p.closed[i].emitted && p.closed[i].bounds == Bounds(1700000040000, 1700000100000)
  {
    WrapTimes();
    hide Precompute.Valid, Validate, Advance, InitBounds, Fed, Blank, Verdict, Stores, MakesRoom, AdvanceWraps,
      InitWraps, Rotated;
    var b, c := Bounds(1700000040000, 1700000100000), Bounds(18446744073709500000, 8384);
    var always, k := (c: Config) => true, (c: Config) => "k";
    p := new Precompute();
    p.UpdateConfig(MINUTES);
    TimeDecides(MINUTES, always, b, map[], k, 1700000040000);
    ghost var id := p.nextId;
    r := p.ObserveOnce(k, 1700000040000, 1.0, always);
    FirstStored(MINUTES, "k", map[], map[], Scalar(1700000040000, 1.0), id, p.series, p.cache);
    ghost var s := p.Now();
    TimeDecides(MINUTES, always, b, p.series, k, MAX_MILLIS);
    TimeDecides(MINUTES, always, c, map[], k, MAX_MILLIS);
    ghost var round := |p.rounds|;
    r := p.Observe(k, MAX_MILLIS, 1.0, always);
    ghost var mid :| Rotated(s, None, round, MAX_MILLIS, mid, p.pendingCfg) && p.cfg == mid.cfg
                     && mid.closed <= p.closed;
    RotatedPlain(s, round, MAX_MILLIS, mid, p.pendingCfg, "k");
    i := p.IndexOf(Closed("k", s.live["k"], b, true, round, MINUTES));
  }

  /** A sample at the greatest time ends in future data although the window is sized; so
      does the next ordinary one; and the window then takes samples from the start of
      the epoch, so that a later rotation closes an earlier range. */
  method WrappedRunExample() returns (p: Precompute, first: Outcome, second: Outcome, ghost i: nat, ghost j: nat)
    ensures p.Valid() && p.steps == {MINUTES.step} && p.wrapped && first == FutureData && second == FutureData
    ensures i < |p.closed| && j < |p.closed| && p.closed[i].emitted && p.closed[j].emitted
    ensures p.closed[i].round < p.closed[j].round && p.closed[j].bounds.end < p.closed[i].bounds.start
  {
    WrapTimes();
    hide Precompute.Valid, Validate, Advance, InitBounds, Fed, Blank, Verdict, Stores, MakesRoom, AdvanceWraps,
      InitWraps, Rotated, Precompute.HandsOut, Due;
    var c, d := Bounds(18446744073709500000, 8384), Bounds(8384, 68384);
    var always, k := (c: Config) => true, (c: Config) => "k";
    p, first, i := TellGreatest();
    TimeDecides(MINUTES, always, c, map[], k, 1700000100001);
    TimeDecides(MINUTES, always, d, map[], k, 1700000100001);
    ghost var s, round := p.Now(), |p.rounds|;
    second := p.Observe(k, 1700000100001, 1.0, always);
    ghost var mid :| Rotated(s, None, round, 1700000100001, mid, p.pendingCfg) && p.cfg == mid.cfg
                     && mid.closed <= p.closed;
    RotatedSame(s, round, 1700000100001, mid, p.pendingCfg);
    j := CloseAgain(p, i);
  }

  /** From there a sample of the tenth second is taken in and closed. */
  method CloseAgain(p: Precompute, ghost i: nat) returns (ghost j: nat)
    requires p.Valid() && p.cfg == Some(MINUTES) && p.pendingCfg == None && p.initialized
    requires p.bounds == Bounds(8384, 68384) && p.series == map[] && i < |p.closed| && p.closed[i].emitted
    modifies p
    ensures p.Valid() && p.steps == old(p.steps) && (old(p.wrapped) ==> p.wrapped) && old(p.closed) <= p.closed
    ensures j < |p.closed| && p.closed[j].emitted && p.closed[j].bounds == Bounds(8384, 68384)
    ensures p.closed[i].round < p.closed[j].round
  {
    WrapTimes();
    hide Precompute.Valid, Validate, Advance, InitBounds, Fed, Blank, Verdict, Stores, MakesRoom, AdvanceWraps,
      InitWraps, Rotated, Precompute.HandsOut, Due;
    var d := Bounds(8384, 68384);
    var always, k := (c: Config) => true, (c: Config) => "k";
    TimeDecides(MINUTES, always, d, map[], k, 10000);
    ghost var id, m, cache := p.nextId, p.series, p.cache;
    var r := p.ObserveOnce(k, 10000, 1.0, always);
    FirstStored(MINUTES, "k", m, cache, Scalar(10000, 1.0), id, p.series, p.cache);
    p.RoundPast(i);
    ghost var s, round := p.Now(), |p.rounds|;
    var out := p.Tick(68384);
    RotatedPlain(s, round, 68384, p.Now(), p.pendingCfg, "k");
    j := p.IndexOf(Closed("k", s.live["k"], d, true, round, MINUTES));
  }

  const UNSIZED: Config := Config(2, 0, 0, 0, false, true)

  lemma FirstSummary(id: nat, c: Config, a: Amount)
    requires a.count > 0
    ensures Fed(Blank(id, c, 0), Summary(0, a, 1, false, 0, 0)).total == a
    ensures Delta(Cached(map[], "k"), a) == Some(a)
    ensures InitBounds(0, 0) == Bounds(0, 0)
  {
  }

  lemma SomeEmitted(live: Live, b: Bounds, c: Config, cache: Cache, envs: seq<Envelope>, k: string)
    requires Emits({k}, live, b, c, cache, envs) && Delta(Cached(cache, k), live[k].total).Some?
    ensures envs != []
  {
  }

  method OpenUnsized(a: Amount) returns (p: Precompute)
    requires a.count > 0
    ensures fresh(p) && p.Valid() && p.cfg == Some(UNSIZED) && p.bounds == Bounds(0, 0) && p.cache == map[]
    ensures p.series.Keys == {"k"} && p.series["k"].total == a
    ensures p.handed == [] && p.pendingOutput == [] && p.discarded == []
  {
    hide Precompute.Valid, InitBounds, Fed, Blank, Stores, Takes;
    p := new Precompute();
    p.UpdateConfig(UNSIZED);
    FirstSummary(p.nextId, UNSIZED, a);
    var always, k := (c: Config) => true, (c: Config) => "k";
    FirstRecorded(UNSIZED, always, Bounds(0, 0), k, "k", 0);
    var r := p.ObserveEnvelope(k, Summary(0, a, 1, false, 0, 0), always);
    assert p.series["k"].total == a;
  }

  /** An unsized window opened at time 0 takes in a summary, makes an envelope for it
      and throws it away: what the series had gained is never shipped. */
  method DiscardExample() returns (p: Precompute)
    ensures p.Valid() && p.handed == [] && p.pendingOutput == [] && p.discarded != []
  {
    hide Precompute.Valid, Emits, Delta, Cached, CachedSnapshot, Refreshed;
    var a := Amount(7.0, 1);
    FirstSummary(0, UNSIZED, a);
    p := OpenUnsized(a);
    assert p.series.Keys * {"k"} == {"k"};
    var envs;
    ghost var lost;
    envs, lost := p.EmitSubWindow({"k"});
    assert envs + lost == lost;
    SomeEmitted(p.series, p.bounds, UNSIZED, map[], lost, "k");
  }
}
