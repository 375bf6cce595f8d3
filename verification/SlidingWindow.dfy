/**
 The sliding window: a ring of closed panes whose live sketches are merged into
 fresh throwaway ones at every rotation.
 */
module SlidingWindow {
  import opened Common
  import opened WindowBounds
  import opened SumDelta

  // ---------------------------------------------------------------------
  // Raw observations
  // ---------------------------------------------------------------------

  /** What was observed in one pane, per series. */
  type Log = map<string, seq<real>>

  function AmountOf(vs: seq<real>): (a: Amount)
  {
    if vs == [] then ZERO else AmountOf(vs[..|vs| - 1]).Plus(Amount(vs[|vs| - 1], 1))
  }

  lemma {:induction false} AmountCounts(vs: seq<real>)
    ensures AmountOf(vs).count == |vs|
  {
    if vs != [] {
      AmountCounts(vs[..|vs| - 1]);
    }
  }

  lemma AmountSnoc(vs: seq<real>, v: real)
    ensures AmountOf(vs + [v]) == AmountOf(vs).Plus(Amount(v, 1))
    ensures AmountOf([]) == ZERO
  {
    assert (vs + [v])[..|vs|] == vs;
  }

  function PaneAmount(log: Log, key: string): (a: Amount)
  {
    if key in log then AmountOf(log[key]) else ZERO
  }

  /** The merge over several panes, recomputed from what was observed. */
  function WindowAmount(logs: seq<Log>, key: string): (a: Amount)
  {
    if logs == [] then ZERO else WindowAmount(logs[..|logs| - 1], key).Plus(PaneAmount(logs[|logs| - 1], key))
  }

  predicate Observed(logs: seq<Log>, key: string)
  {
    exists i :: 0 <= i < |logs| && key in logs[i]
  }

  /** The most recent panes a window of `n` panes covers. */
  function Recent<T>(logs: seq<T>, n: nat): (r: seq<T>)
    ensures |r| == if |logs| <= n then |logs| else n
  {
    if |logs| <= n then logs else logs[|logs| - n..]
  }

  /** Pane `r` is part of rotation `q` exactly for the `n` rotations starting with
      its own. */
  lemma PaneInRotationIff(logs: seq<Log>, n: nat, q: nat, r: nat)
    requires n > 0 && q < |logs|
    ensures var w := Recent(logs[..q + 1], n);
            var first := q + 1 - |w|;
            && (forall i :: 0 <= i < |w| ==> w[i] == logs[first + i])
            && (first <= r <= q <==> r <= q < r + n)
  {
  }

  /** `panesPerWindow`: the least number of slides that cover the window.  Both are
      durations, far below 2^64 ms, so this sum does not wrap. */
  function PanesPerWindow(size: nat, slide: nat): (n: nat)
  {
    if size == 0 || slide == 0 then 1 else (size + slide - 1) / slide
  }

  lemma PanesCover(size: nat, slide: nat)
    requires size > 0 && slide > 0
    ensures var n := PanesPerWindow(size, slide); n >= 1 && (n - 1) * slide < size <= n * slide
  {
    var x := size + slide - 1;
    var n := x / slide;
    assert x == slide * n + x % slide;
    assert n >= 1;
    assert n * slide == slide * n && (n - 1) * slide == slide * n - slide;
  }

  // ---------------------------------------------------------------------
  // Sketches and panes
  // ---------------------------------------------------------------------

  class SumSketch {
    var total: Amount

    constructor ()
      ensures total == ZERO
    {
      total := ZERO;
    }

    method Update(v: real)
      modifies this
      ensures total == old(total).Plus(Amount(v, 1))
    {
      total := Amount(total.sum + v, total.count + 1);
    }

    method Merge(other: SumSketch)
      modifies this
      ensures total == old(total).Plus(old(other.total))
    {
      total := Amount(total.sum + other.total.sum, total.count + other.total.count);
    }
  }

  datatype Cell = Cell(sketch: SumSketch, samples: int, lastSeen: nat)

  type Cells = map<string, Cell>

  datatype Pane = Pane(cells: Cells, bounds: Bounds)

  /** When a series is last seen once a sample at `ts` has joined it. */
  function Seen(cells: Cells, key: string, ts: nat): (t: nat)
  {
    if key in cells && ts < cells[key].lastSeen then cells[key].lastSeen else ts
  }

  /** The cells use sketches from `own` only. */
  ghost predicate Owned(cells: Cells, own: set<SumSketch>)
  {
    forall k :: k in cells ==> cells[k].sketch in own
  }

  predicate HoldsAt(c: Cell, vs: seq<real>)
    reads c.sketch
  {
    c.sketch.total == AmountOf(vs) && c.samples == AmountOf(vs).count
  }

  /** The cells hold the sums and counts of what was observed. */
  ghost predicate Holds(cells: Cells, own: set<SumSketch>, log: Log)
    requires Owned(cells, own)
    reads own
  {
    cells.Keys == log.Keys && forall k :: k in cells ==> HoldsAt(cells[k], log[k])
  }

  /** No two series of a pane share a sketch. */
  ghost predicate Separate(cells: Cells)
  {
    forall j, k :: j in cells && k in cells && j != k ==> cells[j].sketch != cells[k].sketch
  }

  /** Pane by pane, the cells hold what was observed. */
  ghost predicate AllHold(panes: seq<Pane>, own: set<SumSketch>, logs: seq<Log>)
    reads own
  {
    && |panes| == |logs|
    && forall i :: 0 <= i < |panes| ==> Owned(panes[i].cells, own) && Holds(panes[i].cells, own, logs[i])
  }

  // ---------------------------------------------------------------------
  // Merging
  // ---------------------------------------------------------------------

  lemma WindowStep(logs: seq<Log>, i: nat, key: string)
    requires i < |logs|
    ensures WindowAmount(logs[..i + 1], key) == WindowAmount(logs[..i], key).Plus(PaneAmount(logs[i], key))
  {
    assert logs[..i + 1][..i] == logs[..i];
  }

  /** The latest time the series was seen in the panes, or 0. */
  ghost predicate SeenLast(panes: seq<Pane>, key: string, t: nat)
  {
    && (forall i :: 0 <= i < |panes| && key in panes[i].cells ==> panes[i].cells[key].lastSeen <= t)
    && (t == 0 || exists i :: 0 <= i < |panes| && key in panes[i].cells && panes[i].cells[key].lastSeen == t)
  }

  lemma SeenNext(panes: seq<Pane>, i: nat, key: string, t: nat)
    requires i < |panes| && SeenLast(panes[..i], key, t)
    ensures SeenLast(panes[..i + 1], key,
                     if key in panes[i].cells then Max(t, panes[i].cells[key].lastSeen) else t)
  {
    assert panes[..i + 1] == panes[..i] + [panes[i]];
    if t != 0 {
      var j :| 0 <= j < i && key in panes[..i][j].cells && panes[..i][j].cells[key].lastSeen == t;
      assert panes[..i + 1][j] == panes[..i][j];
    }
    assert panes[..i + 1][i] == panes[i];
  }

  /** Merges one series over the panes, oldest first, into a fresh sketch; no
      existing sketch is written. */
  method MergeSeries(panes: seq<Pane>, key: string, ghost own: set<SumSketch>, ghost logs: seq<Log>)
    returns (dst: Cell)
    requires AllHold(panes, own, logs)
    ensures fresh(dst.sketch)
    ensures dst.sketch.total == WindowAmount(logs, key) && dst.samples == WindowAmount(logs, key).count
    ensures SeenLast(panes, key, dst.lastSeen)
  {
    hide AmountOf, WindowAmount;
    var s := new SumSketch();
    var samples, lastSeen := 0, 0;
    WindowNone(key);
    for i := 0 to |panes|
      invariant fresh(s) && s !in own && AllHold(panes, own, logs)
      invariant s.total == WindowAmount(logs[..i], key) && samples == s.total.count
      invariant SeenLast(panes[..i], key, lastSeen)
    {
      WindowStep(logs, i, key);
      SeenNext(panes, i, key, lastSeen);
      assert Holds(panes[i].cells, own, logs[i]);
      if key in panes[i].cells {
        var src := panes[i].cells[key];
        assert HoldsAt(src, logs[i][key]);
        s.Merge(src.sketch);
        samples := samples + src.samples;
        lastSeen := Max(lastSeen, src.lastSeen);
      } else {
        PlusZero(WindowAmount(logs[..i], key));
      }
    }
    assert logs[..|logs|] == logs && panes[..|panes|] == panes;
    dst := Cell(s, samples, lastSeen);
  }

  lemma WindowNone(key: string)
    ensures WindowAmount([], key) == ZERO
  {
  }

  lemma PlusZero(a: Amount)
    ensures a.Plus(ZERO) == a
  {
  }

  function AllKeys(panes: seq<Pane>): (r: set<string>)
  {
    set i, k | 0 <= i < |panes| && k in panes[i].cells :: k
  }

  lemma KeysObserved(panes: seq<Pane>, own: set<SumSketch>, logs: seq<Log>, key: string)
    requires AllHold(panes, own, logs)
    ensures key in AllKeys(panes) <==> Observed(logs, key)
  {
    hide AmountOf;
    if key in AllKeys(panes) {
      var i :| 0 <= i < |panes| && key in panes[i].cells;
      assert Holds(panes[i].cells, own, logs[i]);
      assert key in logs[i];
    }
    if Observed(logs, key) {
      var i :| 0 <= i < |logs| && key in logs[i];
      assert Holds(panes[i].cells, own, logs[i]);
      assert key in panes[i].cells;
    }
  }

  /** The emitted cells: every series observed in the panes, merged over them. */
  ghost predicate Emits(out: Cells, logs: seq<Log>)
    reads set k | k in out :: out[k].sketch
  {
    && (forall k :: k in out <==> Observed(logs, k))
    && (forall k :: k in out ==> out[k].sketch.total == WindowAmount(logs, k)
                                 && out[k].samples == WindowAmount(logs, k).count)
  }

  method MergePanes(panes: seq<Pane>, ghost own: set<SumSketch>, ghost logs: seq<Log>) returns (out: Cells)
    requires AllHold(panes, own, logs)
    ensures forall k :: k in out ==> fresh(out[k].sketch)
    ensures Emits(out, logs)
  {
    hide AmountOf, WindowAmount, AllHold, Observed;
    out := map[];
    var todo := AllKeys(panes);
    while todo != {}
      invariant todo <= AllKeys(panes) && out.Keys == AllKeys(panes) - todo && AllHold(panes, own, logs)
      invariant forall k :: k in out ==> fresh(out[k].sketch)
      invariant forall k :: k in out ==> out[k].sketch.total == WindowAmount(logs, k)
                                         && out[k].samples == WindowAmount(logs, k).count
      decreases |todo|
    {
      var k :| k in todo;
      var cell := MergeSeries(panes, k, own, logs);
      out := out[k := cell];
      todo := todo - {k};
    }
    forall k
      ensures k in out <==> Observed(logs, k)
    {
      KeysObserved(panes, own, logs, k);
    }
  }

  // ---------------------------------------------------------------------
  // The window
  // ---------------------------------------------------------------------

  class Window {
    const n: nat
    const slide: Millis
    const lateness: nat

    var cells: Cells
    var bounds: Bounds
    var panes: seq<Pane>

    /** What was observed in the current pane and in every closed one, when each was
        closed, whether some pane's end did not fit 64 bits, and the sketches of both. */
    ghost var current: Log
    ghost var logs: seq<Log>
    ghost var times: seq<Millis>
    ghost var wrapped: bool
    ghost var live: set<SumSketch>
    ghost var retained: set<SumSketch>

    ghost predicate CurrentOk()
      reads `cells, `live, `current, live
    {
      Owned(cells, live) && Separate(cells) && Holds(cells, live, current)
    }

    ghost predicate Contents()
      reads `cells, `live, `current, `panes, `retained, `logs, live, retained
    {
      n > 0 && slide > 0 && live !! retained && CurrentOk() && AllHold(panes, retained, Recent(logs, n))
    }

    ghost predicate Valid()
      reads this, live, retained
    {
      Contents() && (!wrapped ==> InOrder(panes, bounds, slide) && Aligned(bounds, slide)) && Rotations()
    }

    /** Each retained pane was followed by the one its rotation time leads to. */
    ghost predicate Rotations()
      reads `panes, `bounds, `logs, `times
    {
      |times| == |logs| && FollowOn(panes, times, n, bounds, slide)
    }

    constructor (size: nat, slideMs: Millis, allowed: nat, startMs: Millis)
      requires size > 0 && slideMs > 0
      ensures Valid() && n == PanesPerWindow(size, slideMs) && slide == slideMs && lateness == allowed
      ensures bounds == InitBounds(startMs, slideMs) && panes == [] && live == {} && retained == {}
      ensures logs == [] && times == [] && current == map[] && wrapped == InitWraps(startMs, slideMs)
    {
      PanesCover(size, slideMs);
      InitAligned(startMs, slideMs);
      InitOnStep(startMs, slideMs);
      n, slide, lateness := PanesPerWindow(size, slideMs), slideMs, allowed;
      cells, panes, bounds := map[], [], InitBounds(startMs, slideMs);
      current, logs, times, live, retained, wrapped := map[], [], [], {}, {}, InitWraps(startMs, slideMs);
    }

    /** A sample outside the current pane and its lateness is refused. */
    method Observe(key: string, ts: Millis, v: real) returns (r: Timing)
      requires Valid()
      modifies `cells, `current, `live, live
      ensures Valid() && fresh(live - old(live))
      ensures r == Future <==> bounds.end <= ts
      ensures r == Late <==> ts < bounds.end && ts + lateness < bounds.start
      ensures r == InTime ==> key in cells && cells[key].lastSeen == Seen(old(cells), key, ts)
      ensures current == if r != InTime then old(current)
                         else old(current)[key := (if key in old(current) then old(current)[key] else []) + [v]]
    {
      hide AllHold, Recent, Separate, AmountOf, FollowOn, Validate, InOrder;
      r := Validate(bounds, ts, lateness);
      if r != InTime {
        return;
      }
      assert cells.Keys == current.Keys;
      if key in cells {
        Record(key, ts, v);
      } else {
        Create(key, ts, v);
      }
    }

    method Record(key: string, ts: Millis, v: real)
      requires CurrentOk() && key in cells
      modifies `cells, `current, live
      ensures CurrentOk() && key in old(current) && current == old(current)[key := old(current)[key] + [v]]
      ensures key in cells && cells[key].lastSeen == Seen(old(cells), key, ts)
    {
      hide Separate, AmountOf;
      var c := cells[key];
      ghost var cells0, log := cells, current;
      OthersDiffer(cells, key);
      assert forall k :: k in cells && k != key ==> HoldsAt(cells[k], current[k]);
      assert HoldsAt(c, current[key]);
      AmountSnoc(current[key], v);
      c.sketch.Update(v);
      assert forall k :: k in cells0 && k != key ==> HoldsAt(cells0[k], log[k]);
      cells := cells[key := Cell(c.sketch, c.samples + 1, Max(c.lastSeen, ts))];
      current := current[key := current[key] + [v]];
      SeparateUpdate(cells0, key, cells[key]);
    }

    method Create(key: string, ts: Millis, v: real)
      requires CurrentOk() && key !in cells
      modifies `cells, `current, `live
      ensures CurrentOk() && current == old(current)[key := [] + [v]] && fresh(live - old(live))
      ensures key !in old(current) && key in cells && cells[key].lastSeen == ts
    {
      hide Separate, AmountOf;
      ghost var cells0, log := cells, current;
      var s := new SumSketch();
      s.Update(v);
      AmountSnoc([], v);
      assert forall k :: k in cells0 ==> HoldsAt(cells0[k], log[k]);
      assert cells0.Keys == log.Keys;
      cells := cells[key := Cell(s, 1, ts)];
      current := current[key := [] + [v]];
      live := live + {s};
      SeparateNew(cells0, key, cells[key]);
    }

    /** Closes the pane and emits the merge over the most recent `n` panes.  Only the
        window's own fields change: no pane sketch is written.  As long as no pane's end
        wrapped, the emitted range is as long as its panes if and only if each but the
        last was closed less than a slide after its end; otherwise it is longer. */
    method Rotate(nowMs: Millis) returns (out: Cells, range: Option<Bounds>)
      requires Valid()
      modifies this
      ensures Valid() && logs == old(logs) + [old(current)] && times == old(times) + [nowMs] && current == map[]
      ensures bounds == Advance(old(bounds), nowMs, slide) && live == {} && retained == old(retained + live)
      ensures wrapped == (old(wrapped) || AdvanceWraps(old(bounds), nowMs, slide))
      ensures (forall k :: k in out ==> fresh(out[k].sketch)) && Emits(out, Recent(logs, n))
      ensures panes == Trimmed(old(panes) + [Pane(old(cells), old(bounds))], n) && panes != []
      ensures range == if out == map[] then None else Some(Bounds(panes[0].bounds.start, old(bounds).end))
      ensures range.Some? && !old(wrapped) ==>
                && range.value.end >= range.value.start + |panes| * slide
                && (range.value.end == range.value.start + |panes| * slide <==>
                      Punctual(panes, Recent(times, n), slide))
    {
      hide AmountOf, Advance, AdvanceWraps, Aligned, Emits, Contents, InOrder, FollowOn, Punctual, RangesOf, Recent,
        Trimmed;
      NoZeroSlide();
      if !wrapped {
        RotateInOrder(panes, Pane(cells, bounds), n, slide, nowMs);
      }
      RotateFollows(panes, times, n, Pane(cells, bounds), nowMs, slide);
      ClosePane();
      Step(nowMs);
      RetainedHold();
      out := MergePanes(panes, retained, Recent(logs, n));
      range := if out == map[] then None
               else Some(Bounds(panes[0].bounds.start, panes[|panes| - 1].bounds.end));
      if !old(wrapped) {
        EmittedSpan(panes, times, n, bounds, slide);
      }
    }

    method Step(nowMs: Millis)
      modifies `bounds, `times, `wrapped
      ensures bounds == Advance(old(bounds), nowMs, slide) && times == old(times) + [nowMs]
      ensures wrapped == (old(wrapped) || AdvanceWraps(old(bounds), nowMs, slide))
    {
      wrapped, times := wrapped || AdvanceWraps(bounds, nowMs, slide), times + [nowMs];
      bounds := Advance(bounds, nowMs, slide);
    }

    lemma NoZeroSlide()
      requires Valid()
      ensures n > 0 && slide > 0 && Contents() && Rotations() && |times| == |logs|
      ensures !wrapped ==> InOrder(panes, bounds, slide) && Aligned(bounds, slide)
    {
    }

    lemma RetainedHold()
      requires Contents()
      ensures AllHold(panes, retained, Recent(logs, n))
    {
    }

    /** Appends the current pane to the ring and drops what has aged out. */
    method ClosePane()
      requires Contents()
      modifies `cells, `panes, `current, `logs, `live, `retained
      ensures Contents() && logs == old(logs) + [old(current)] && current == map[]
      ensures panes == Trimmed(old(panes) + [Pane(old(cells), bounds)], n)
      ensures panes != [] && panes[|panes| - 1] == Pane(old(cells), bounds)
      ensures |panes| == if |logs| <= n then |logs| else n
      ensures live == {} && retained == old(retained + live)
    {
      hide AmountOf, AllHold, Holds, Recent;
      ghost var all := logs + [current];
      RecentSnoc(logs, current, n);
      RingLength(panes, retained, logs, n);
      var ring := panes + [Pane(cells, bounds)];
      RingHolds(panes, Pane(cells, bounds), live, retained, Recent(logs, n), current);
      if |ring| > n {
        RingTrimmed(ring, retained + live, Recent(logs, n) + [current], n);
        ring := ring[|ring| - n..];
      }
      assert ring[|ring| - 1] == Pane(cells, bounds);
      NothingHeld();
      retained := retained + live;
      logs := all;
      panes := ring;
      cells, current, live := map[], map[], {};
    }
  }

  lemma NothingHeld()
    ensures Owned(map[], {}) && Holds(map[], {}, map[])
  {
  }

  lemma RingLength(panes: seq<Pane>, own: set<SumSketch>, logs: seq<Log>, n: nat)
    requires AllHold(panes, own, Recent(logs, n))
    ensures |panes| == |Recent(logs, n)| == if |logs| <= n then |logs| else n
  {
    hide Holds;
  }

  lemma RingTrimmed(panes: seq<Pane>, own: set<SumSketch>, logs: seq<Log>, n: nat)
    requires AllHold(panes, own, logs) && n <= |panes|
    ensures AllHold(panes[|panes| - n..], own, logs[|logs| - n..])
  {
    hide Holds;
  }

  function Trimmed(ring: seq<Pane>, n: nat): (r: seq<Pane>)
  {
    if |ring| > n then ring[|ring| - n..] else ring
  }

  function RangesOf(panes: seq<Pane>): (r: seq<Bounds>)
    ensures |r| == |panes|
  {
    seq(|panes|, i requires 0 <= i < |panes| => panes[i].bounds)
  }

  /** The panes of the ring follow one another and precede the current one, which
      starts on a boundary. */
  ghost predicate InOrder(panes: seq<Pane>, b: Bounds, slide: Millis)
  {
    && slide > 0 && b.start % slide == 0 && InSequence(RangesOf(panes), slide)
    && (panes != [] ==> panes[|panes| - 1].bounds.end <= b.start)
  }

  /** The order is kept even by a rotation whose next end wraps; only that pane is then
      not a whole slide. */
  lemma RotateInOrder(panes: seq<Pane>, p: Pane, n: nat, slide: Millis, nowMs: Millis)
    requires n > 0 && InOrder(panes, p.bounds, slide) && Aligned(p.bounds, slide)
    ensures var b := Advance(p.bounds, nowMs, slide);
            && InOrder(Trimmed(panes + [p], n), b, slide)
            && (Aligned(b, slide) <==> !AdvanceWraps(p.bounds, nowMs, slide))
  {
    hide Advance, InSequence, AdvanceWraps, Aligned;
    AdvanceAligned(p.bounds, nowMs, slide);
    var ring := panes + [p];
    SequenceSnoc(RangesOf(panes), p.bounds, slide);
    assert RangesOf(ring) == RangesOf(panes) + [p.bounds];
    if |ring| > n {
      SequenceSuffix(RangesOf(ring), |ring| - n, slide);
      assert RangesOf(ring[|ring| - n..]) == RangesOf(ring)[|ring| - n..];
    }
  }

  lemma InitOnStep(startMs: Millis, slide: Millis)
    requires slide > 0
    ensures InitBounds(startMs, slide).start % slide == 0
  {
  }

  lemma SequenceSnoc(bs: seq<Bounds>, b: Bounds, slide: Millis)
    requires slide > 0 && InSequence(bs, slide) && Aligned(b, slide)
    requires bs != [] ==> bs[|bs| - 1].end <= b.start
    ensures InSequence(bs + [b], slide)
  {
    if bs != [] {
      var last := bs[|bs| - 1];
      assert forall i :: 0 <= i < |bs| ==> bs[i].end <= last.end;
    }
  }

  lemma SequenceSuffix(bs: seq<Bounds>, k: nat, slide: Millis)
    requires slide > 0 && InSequence(bs, slide) && k <= |bs|
    ensures InSequence(bs[k..], slide)
  {
  }

  lemma OthersDiffer(cells: Cells, key: string)
    requires Separate(cells) && key in cells
    ensures forall k :: k in cells && k != key ==> cells[k].sketch != cells[key].sketch
  {
  }

  lemma SeparateUpdate(cells: Cells, key: string, c: Cell)
    requires Separate(cells) && key in cells && c.sketch == cells[key].sketch
    ensures Separate(cells[key := c])
  {
  }

  lemma SeparateNew(cells: Cells, key: string, c: Cell)
    requires Separate(cells) && forall k :: k in cells ==> cells[k].sketch != c.sketch
    ensures Separate(cells[key := c])
  {
  }

  lemma RecentSnoc<T>(logs: seq<T>, log: T, n: nat)
    requires n > 0
    ensures var r := Recent(logs, n) + [log];
            Recent(logs + [log], n) == if |r| > n then r[|r| - n..] else r
  {
  }

  lemma RingHolds(panes: seq<Pane>, p: Pane, live: set<SumSketch>, retained: set<SumSketch>, logs: seq<Log>, log: Log)
    requires AllHold(panes, retained, logs) && Owned(p.cells, live) && Holds(p.cells, live, log)
    ensures AllHold(panes + [p], retained + live, logs + [log])
  {
    hide AmountOf;
    var ps, ls := panes + [p], logs + [log];
    forall i | 0 <= i < |ps|
      ensures Owned(ps[i].cells, retained + live) && Holds(ps[i].cells, retained + live, ls[i])
    {
      if i < |panes| {
        assert Holds(panes[i].cells, retained, logs[i]);
      }
    }
  }

  // ---------------------------------------------------------------------
  // The emitted range
  // ---------------------------------------------------------------------

  /** Consecutive aligned panes, each starting no earlier than the last one ended. */
  predicate InSequence(bs: seq<Bounds>, slide: Millis)
    requires slide > 0
  {
    && (forall i :: 0 <= i < |bs| ==> Aligned(bs[i], slide))
    && (forall i, j :: 0 <= i < j < |bs| ==> bs[i].end <= bs[j].start)
  }

  predicate Contiguous(bs: seq<Bounds>)
  {
    forall i :: 0 < i < |bs| ==> bs[i - 1].end == bs[i].start
  }

  /** The range after the `i`th one: the next of the list, or the open one. */
  ghost function After(bs: seq<Bounds>, b: Bounds, i: nat): Bounds
    requires i < |bs|
  {
    if i + 1 < |bs| then bs[i + 1] else b
  }

  /** Each range is followed by the one its rotation time leads to. */
  ghost predicate Chained(bs: seq<Bounds>, times: seq<Millis>, b: Bounds, slide: Millis)
    requires |bs| == |times|
  {
    forall i :: 0 <= i < |bs| ==> After(bs, b, i) == Advance(bs[i], times[i], slide)
  }

  /** The ring against all rotation times so far. */
  ghost predicate FollowOn(panes: seq<Pane>, times: seq<Millis>, n: nat, b: Bounds, slide: Millis)
  {
    slide > 0 && |panes| == |Recent(times, n)| && Chained(RangesOf(panes), Recent(times, n), b, slide)
  }

  lemma RotateFollows(panes: seq<Pane>, times: seq<Millis>, n: nat, p: Pane, nowMs: Millis, slide: Millis)
    requires n > 0 && FollowOn(panes, times, n, p.bounds, slide)
    ensures FollowOn(Trimmed(panes + [p], n), times + [nowMs], n, Advance(p.bounds, nowMs, slide), slide)
  {
    hide Advance, Chained;
    var ring := panes + [p];
    assert RangesOf(ring) == RangesOf(panes) + [p.bounds];
    ChainedSnoc(RangesOf(panes), Recent(times, n), p.bounds, nowMs, slide);
    RecentSnoc(times, nowMs, n);
    if |ring| > n {
      ChainedSuffix(RangesOf(ring), Recent(times, n) + [nowMs], Advance(p.bounds, nowMs, slide), slide, |ring| - n);
      assert RangesOf(ring[|ring| - n..]) == RangesOf(ring)[|ring| - n..];
    }
  }

  lemma ChainedSnoc(bs: seq<Bounds>, times: seq<Millis>, b: Bounds, nowMs: Millis, slide: Millis)
    requires |bs| == |times| && Chained(bs, times, b, slide)
    ensures Chained(bs + [b], times + [nowMs], Advance(b, nowMs, slide), slide)
  {
    hide Advance;
    var all, ts := bs + [b], times + [nowMs];
    forall i | 0 <= i < |all|
      ensures After(all, Advance(b, nowMs, slide), i) == Advance(all[i], ts[i], slide)
    {
      if i < |bs| {
        assert After(bs, b, i) == Advance(bs[i], times[i], slide);
      }
    }
  }

  lemma ChainedSuffix(bs: seq<Bounds>, times: seq<Millis>, b: Bounds, slide: Millis, k: nat)
    requires |bs| == |times| && Chained(bs, times, b, slide) && k <= |bs|
    ensures Chained(bs[k..], times[k..], b, slide)
  {
    hide Advance;
    forall i | 0 <= i < |bs| - k
      ensures After(bs[k..], b, i) == Advance(bs[k..][i], times[k..][i], slide)
    {
      assert After(bs, b, k + i) == Advance(bs[k + i], times[k + i], slide);
    }
  }

  /** Every pane but the last was closed less than a slide after its end. */
  ghost predicate Punctual(panes: seq<Pane>, times: seq<Millis>, slide: Millis)
  {
    |panes| == |times| && forall i :: 0 <= i < |panes| - 1 ==> times[i] < panes[i].bounds.end + slide
  }

  /** Ranges in sequence span as much as they are long exactly when none leaves a gap. */
  lemma {:induction false} SpanIff(bs: seq<Bounds>, slide: Millis)
    requires slide > 0 && bs != [] && InSequence(bs, slide)
    ensures bs[|bs| - 1].end >= bs[0].start + |bs| * slide
    ensures bs[|bs| - 1].end == bs[0].start + |bs| * slide <==> Contiguous(bs)
    decreases |bs|
  {
    hide Contiguous, InSequence;
    var n := |bs| - 1;
    LastInSequence(bs, slide);
    if n > 0 {
      SpanIff(bs[..n], slide);
      OneMore(n, slide);
      ContiguousSnoc(bs);
    } else {
      ContiguousOne(bs);
    }
  }

  lemma LastInSequence(bs: seq<Bounds>, slide: Millis)
    requires slide > 0 && bs != [] && InSequence(bs, slide)
    ensures var n := |bs| - 1;
            && InSequence(bs[..n], slide) && bs[n].end == bs[n].start + slide
            && (n > 0 ==> bs[n - 1].end <= bs[n].start)
  {
    assert Aligned(bs[|bs| - 1], slide);
  }

  lemma OneMore(n: nat, slide: nat)
    ensures (n + 1) * slide == n * slide + slide
  {
  }

  lemma ContiguousOne(bs: seq<Bounds>)
    requires |bs| == 1
    ensures Contiguous(bs)
  {
  }

  lemma ContiguousSnoc(bs: seq<Bounds>)
    requires |bs| > 1
    ensures var n := |bs| - 1; Contiguous(bs) <==> Contiguous(bs[..n]) && bs[n - 1].end == bs[n].start
  {
    var n := |bs| - 1;
    assert forall i :: 0 <= i < n ==> bs[..n][i] == bs[i];
  }

  /** Two panes in a row leave no gap exactly when the first was closed in time. */
  lemma MeetsIff(bs: seq<Bounds>, times: seq<Millis>, b: Bounds, slide: Millis, i: nat)
    requires slide > 0 && |bs| == |times| && Chained(bs, times, b, slide) && InSequence(bs, slide) && 0 < i < |bs|
    ensures bs[i - 1].end == bs[i].start <==> times[i - 1] < bs[i - 1].end + slide
  {
    hide Advance, Aligned;
    AdvanceMeetsIff(bs[i - 1], times[i - 1], slide);
    assert After(bs, b, i - 1) == bs[i];
  }

  lemma ContiguousIff(panes: seq<Pane>, times: seq<Millis>, b: Bounds, slide: Millis)
    requires slide > 0 && |panes| == |times| && Chained(RangesOf(panes), times, b, slide)
    requires InSequence(RangesOf(panes), slide)
    ensures Contiguous(RangesOf(panes)) <==> Punctual(panes, times, slide)
  {
    hide Chained, InSequence, Aligned;
    var bs := RangesOf(panes);
    if Contiguous(bs) {
      forall i | 0 <= i < |panes| - 1
        ensures times[i] < panes[i].bounds.end + slide
      {
        MeetsIff(bs, times, b, slide, i + 1);
      }
    }
    if Punctual(panes, times, slide) {
      forall i | 0 < i < |bs|
        ensures bs[i - 1].end == bs[i].start
      {
        MeetsIff(bs, times, b, slide, i);
        assert times[i - 1] < panes[i - 1].bounds.end + slide;
      }
    }
  }

  /** The span of the retained panes against when they were closed. */
  lemma EmittedSpan(panes: seq<Pane>, times: seq<Millis>, n: nat, b: Bounds, slide: Millis)
    requires panes != [] && InOrder(panes, b, slide) && FollowOn(panes, times, n, b, slide)
    ensures var first, last := panes[0].bounds, panes[|panes| - 1].bounds;
            && |panes| == |Recent(times, n)| && last.end >= first.start + |panes| * slide
            && (last.end == first.start + |panes| * slide <==> Punctual(panes, Recent(times, n), slide))
  {
    hide Chained, Aligned, Recent, Punctual, Contiguous, InSequence;
    SpanIff(RangesOf(panes), slide);
    ContiguousIff(panes, Recent(times, n), b, slide);
  }

  lemma GapTimes()
    ensures InitBounds(0, 10) == Bounds(0, 10) && PanesPerWindow(20, 10) == 2
    ensures Validate(Bounds(0, 10), 5, 0) == InTime && Validate(Bounds(100, 110), 105, 0) == InTime
    ensures Advance(Bounds(0, 10), 105, 10) == Bounds(100, 110)
  {
  }

  /** A window of 20 ms with 90 idle ms between its two panes emits a range of 110 ms. */
  method IdleGapExample() returns (range: Option<Bounds>)
    ensures range == Some(Bounds(0, 110))
  {
    GapTimes();
    hide Window.Valid, InitBounds, PanesPerWindow, Validate, Advance, WindowAmount, Punctual;
    var w := new Window(20, 10, 0, 0);
    var r := w.Observe("k", 5, 1.0);
    var out;
    out, range := w.Rotate(105);
    r := w.Observe("k", 105, 2.0);
    out, range := w.Rotate(110);
    assert "k" in w.logs[1] && Observed(Recent(w.logs, 2), "k");
  }

  lemma LastTimes()
    ensures var a, b := Bounds(MAX_MILLIS - 15, MAX_MILLIS - 5), Bounds(MAX_MILLIS - 5, 4);
            && InitBounds(MAX_MILLIS - 15, 10) == a && PanesPerWindow(20, 10) == 2
            && Validate(a, MAX_MILLIS - 10, 0) == InTime && Advance(a, MAX_MILLIS, 10) == b
  {
  }

  /** At the end of time a window of 20 ms emits a range that ends before it starts. */
  method WrappedSpanExample() returns (range: Option<Bounds>)
    ensures range == Some(Bounds(MAX_MILLIS - 15, 4))
  {
    LastTimes();
    hide Window.Valid, InitBounds, PanesPerWindow, Validate, Advance, WindowAmount, Punctual, AdvanceWraps, InitWraps;
    var w := new Window(20, 10, 0, MAX_MILLIS - 15);
    var r := w.Observe("k", MAX_MILLIS - 10, 1.0);
    var out;
    out, range := w.Rotate(MAX_MILLIS);
    out, range := w.Rotate(MAX_MILLIS);
    assert "k" in w.logs[0] && Observed(Recent(w.logs, 2), "k");
  }
}
